/** What the exporter of evals/export.py emits, judged by the checks of evals/dataset_checks.py. */
module ExportAccepted {
  import opened Wrappers
  import opened TraceExport
  import opened Exporter
  import opened DatasetChecks
  import Texts

  function LinesFor(trajectories: seq<Trajectory>): seq<Line> {
    seq(|trajectories|, i requires 0 <= i < |trajectories| => Line(trajectories[i].trajectoryId, Some(trajectories[i])))
  }

  function LabelIdsFor(labels: seq<LabelLine>): seq<string> {
    seq(|labels|, i requires 0 <= i < |labels| => labels[i].trajectoryId)
  }

  /** The export's own files, read back as they were written. */
  function Loaded(e: Export): Dataset {
    Dataset(e.manifest, LinesOf(e.trajectories), LinesOf(e.labels), LinesFor(e.trajectories), LabelIdsFor(e.labels))
  }

  lemma {:induction false} RecordsReadBack(trajectories: seq<Trajectory>)
    ensures Records(LinesFor(trajectories)) == trajectories
  {
    if trajectories != [] {
      var init, last := trajectories[..|trajectories| - 1], trajectories[|trajectories| - 1];
      assert LinesFor(trajectories)[..|trajectories| - 1] == LinesFor(init);
      RecordsReadBack(init);
      assert trajectories == init + [last];
    }
  }

  /** The manifest the exporter writes is true of the files it writes. */
  lemma ManifestAccepted(
      e: Export, files: seq<TraceFile>, corpus: seq<Scenario>, includeRehearsal: bool, ordered: seq<TraceInvocation>)
    requires Exported(e, files, corpus, includeRehearsal, ordered)
    ensures ManifestAgrees(Loaded(e))
  {
    RecordsReadBack(e.trajectories);
    NumbersAreTrue(
      e.manifest.invocationId, e.trajectories, e.labels, RefusedIds(corpus), e.manifest.rehearsalRefused,
      includeRehearsal);
    SameIds(e, ordered, ByName(corpus));
    OneVersion(e, ordered, ByName(corpus));
  }

  lemma NumbersAreTrue(
      id: string, trajectories: seq<Trajectory>, labels: seq<LabelLine>, heldOut: set<string>, refused: nat,
      included: bool)
    ensures NumbersAgree(ManifestOf(id, trajectories, labels, heldOut, refused, included), |trajectories|, trajectories)
  {
    SortedListsTheSet(TemplatesOf(trajectories));
    SortedListsTheSet(ScenariosOf(trajectories));
    SortedListsTheSet(SplitsOf(trajectories));
  }

  lemma OneVersion(e: Export, ordered: seq<TraceInvocation>, byName: map<string, Scenario>)
    requires RendersAll(e, ordered, byName)
    ensures forall t <- e.trajectories :: t.schemaVersion == SCHEMA_VERSION
  {
    forall t | t in e.trajectories ensures t.schemaVersion == SCHEMA_VERSION {
      var i :| 0 <= i < |ordered| && e.trajectories[i] == t;
      assert Renders(e.trajectories[i], ordered[i], byName[ordered[i].scenario]);
    }
  }

  lemma SameIds(e: Export, ordered: seq<TraceInvocation>, byName: map<string, Scenario>)
    requires RendersAll(e, ordered, byName)
    ensures LineIds(LinesFor(e.trajectories)) == LabelIds(Loaded(e))
  {
    var lines, ids := LinesFor(e.trajectories), LabelIdsFor(e.labels);
    forall i | 0 <= i < |ordered| ensures lines[i].trajectoryId == ids[i] {
      assert Renders(e.trajectories[i], ordered[i], byName[ordered[i].scenario]);
    }
    forall id ensures id in LineIds(lines) <==> id in ids {
      if id in LineIds(lines) {
        var i :| 0 <= i < |lines| && lines[i].trajectoryId == id;
        assert ids[i] == id;
      }
      if id in ids {
        var i :| 0 <= i < |ids| && ids[i] == id;
        assert lines[i] in lines && lines[i].trajectoryId == id;
      }
    }
  }

  // ----- Actions -----

  /** Bound by place, an action's reference can only resolve to its own observation. */
  lemma BoundActionsAgree(t: Trajectory, calls: seq<Body>, traceFile: string)
    requires forall call <- calls :: IsCall(call)
    requires Bound(t.actions, t.observations, calls, traceFile)
    requires t.outcome.actionCount == |t.actions| && t.outcome.decisionCount == |t.decisions|
    ensures ActionsAgree(t)
  {
    forall action | action in t.actions && Identifies(t.observations, action.result.observationRef)
      ensures OwnResult(action, t.observations)
    {
      var i :| 0 <= i < |t.actions| && t.actions[i] == action;
      assert BoundAt(t.actions[i], i, calls[i], t.observations[i]);
      forall o | o in t.observations && o.id == action.result.observationRef
        ensures o.toolName == action.toolName && o.ok == action.result.ok
      {
        var j :| 0 <= j < |t.observations| && t.observations[j] == o;
        if i < j { OneMeansOne(t.observations, i, j); }
        if j < i { OneMeansOne(t.observations, j, i); }
      }
    }
  }

  lemma ActionsAccepted(
      e: Export, files: seq<TraceFile>, corpus: seq<Scenario>, includeRehearsal: bool, ordered: seq<TraceInvocation>)
    requires Exported(e, files, corpus, includeRehearsal, ordered)
    ensures forall record <- Records(Loaded(e).lines) :: ActionsAgree(record)
  {
    RecordsReadBack(e.trajectories);
    forall t | t in e.trajectories ensures ActionsAgree(t) {
      var i :| 0 <= i < |ordered| && e.trajectories[i] == t;
      assert Renders(t, ordered[i], ByName(corpus)[ordered[i].scenario]);
      BoundActionsAgree(t, Calls(ordered[i].records), ordered[i].traceFile);
    }
  }

  // ----- Missing results -----

  /** Every call recorded something, under an id of its own. */
  ghost predicate WellTraced(observations: seq<ObservationRef>) {
    && (forall o <- observations :: o.id != "" && o.content.Some?)
    && forall i, j :: 0 <= i < j < |observations| ==> observations[i].id != observations[j].id
  }

  lemma {:induction false} DistinctIdentify(observations: seq<ObservationRef>, i: nat)
    requires forall i, j :: 0 <= i < j < |observations| ==> observations[i].id != observations[j].id
    requires i < |observations|
    ensures CountId(observations, observations[i].id) == 1
  {
    var init, last := observations[..|observations| - 1], observations[|observations| - 1];
    if i < |observations| - 1 {
      DistinctIdentify(init, i);
    } else {
      CountOfNone(init, last.id);
    }
  }

  /** An exported line has all its results exactly when its trace recorded every call well: the one thing the
      exporter passes on unrefused and the checks then report. */
  lemma MissingExactly(t: Trajectory, calls: seq<Body>, traceFile: string)
    requires forall call <- calls :: IsCall(call)
    requires Bound(t.actions, t.observations, calls, traceFile)
    ensures NothingMissing(t) <==> WellTraced(t.observations)
  {
    var observations := t.observations;
    if NothingMissing(t) {
      forall i, j | 0 <= i < j < |observations| ensures observations[i].id != observations[j].id {
        assert observations[i] in observations;
        if observations[i].id == observations[j].id { OneMeansOne(observations, i, j); }
      }
    }
    if WellTraced(observations) {
      forall i | 0 <= i < |observations|
        ensures Identifies(observations, observations[i].id) && t.actions[i] in t.actions
          && t.actions[i].result.observationRef == observations[i].id
      {
        DistinctIdentify(observations, i);
        assert observations[i] in observations && BoundAt(t.actions[i], i, calls[i], observations[i]);
      }
      AllFound(t);
    }
  }

  ghost predicate Refers(actions: seq<ActionRecord>, id: string) {
    exists action <- actions :: action.result.observationRef == id
  }

  lemma AllFound(t: Trajectory)
    requires |t.actions| == |t.observations| && forall o <- t.observations :: o.content.Some?
    requires forall i :: 0 <= i < |t.observations| ==>
      Identifies(t.observations, t.observations[i].id) && t.actions[i].result.observationRef == t.observations[i].id
    ensures NothingMissing(t)
  {
    forall o | o in t.observations
      ensures Identifies(t.observations, o.id) && Refers(t.actions, o.id)
    {
      var i :| 0 <= i < |t.observations| && t.observations[i] == o;
      assert t.actions[i] in t.actions && t.actions[i].result.observationRef == o.id;
    }
    forall action | action in t.actions ensures Identifies(t.observations, action.result.observationRef) {
      var i :| 0 <= i < |t.actions| && t.actions[i] == action;
      assert t.observations[i].id == action.result.observationRef;
    }
  }

  // ----- Holdout -----

  /** No scenario of the corpus is hidden behind a later one of its name. */
  predicate UniqueNames(corpus: seq<Scenario>) {
    forall a <- corpus, b <- corpus :: a.name == b.name ==> a == b
  }

  lemma UniqueNamesHideNothing(corpus: seq<Scenario>)
    requires UniqueNames(corpus)
    ensures HoldoutIds(WholeCorpus(corpus)) == RefusedIds(corpus)
  {
    forall scenario | scenario in corpus ensures scenario in ByName(corpus).Values {
      assert ByName(corpus)[scenario.name] == scenario;
    }
    assert ByName(corpus).Values == WholeCorpus(corpus) by {
      forall scenario | scenario in ByName(corpus).Values ensures scenario in WholeCorpus(corpus) {
        var name :| name in ByName(corpus) && ByName(corpus)[name] == scenario;
      }
    }
  }

  /** No line of an export is of a scenario or template that its own refusal knows to be held out. */
  lemma NothingRefusedIsEmitted(
      e: Export, files: seq<TraceFile>, corpus: seq<Scenario>, includeRehearsal: bool, ordered: seq<TraceInvocation>)
    requires Exported(e, files, corpus, includeRehearsal, ordered)
    ensures forall t <- e.trajectories :: !Contaminates(t, RefusedIds(corpus), ByName(corpus))
  {
    var byName := ByName(corpus);
    forall t | t in e.trajectories ensures !Contaminates(t, RefusedIds(corpus), byName) {
      var i :| 0 <= i < |ordered| && e.trajectories[i] == t;
      assert Renders(t, ordered[i], byName[ordered[i].scenario]);
      assert ordered[i] in multiset(ordered);
      assert ordered[i] in ToExport(AllInvocations(files), includeRehearsal);
    }
  }

  /** Every template the corpus holds out is held out by a scenario that is the last of its name. */
  ghost predicate HoldoutsSurvive(corpus: seq<Scenario>) {
    forall hidden <- corpus :: hidden.split == HOLDOUT ==> Survives(corpus, hidden.templateId)
  }

  ghost predicate Survives(corpus: seq<Scenario>, template: string) {
    exists name <- ByName(corpus) ::
      ByName(corpus)[name].split == HOLDOUT && ByName(corpus)[name].templateId == template
  }

  lemma SurvivorsAreRefused(corpus: seq<Scenario>)
    ensures HoldoutIds(WholeCorpus(corpus)) == RefusedIds(corpus) <==> HoldoutsSurvive(corpus)
  {
    forall template ensures template in RefusedIds(corpus) <==> Survives(corpus, template) {
      if Survives(corpus, template) {
        var name :| name in ByName(corpus) && ByName(corpus)[name].split == HOLDOUT
          && ByName(corpus)[name].templateId == template;
        assert ByName(corpus)[name] in ByName(corpus).Values;
      }
    }
    forall template | template in RefusedIds(corpus) ensures template in HoldoutIds(WholeCorpus(corpus)) {
      var name :| name in ByName(corpus) && ByName(corpus)[name].split == HOLDOUT
        && ByName(corpus)[name].templateId == template;
      assert ByName(corpus)[name] in WholeCorpus(corpus);
    }
    if HoldoutIds(WholeCorpus(corpus)) == RefusedIds(corpus) {
      forall hidden | hidden in corpus && hidden.split == HOLDOUT ensures Survives(corpus, hidden.templateId) {
        assert hidden in WholeCorpus(corpus) && hidden.templateId in HoldoutIds(WholeCorpus(corpus));
      }
    }
  }

  /** The independent holdout check accepts an export exactly when every held-out template is still held out
      by a scenario that is the last of its name; distinct names are enough. */
  lemma HoldoutAcceptedExactly(
      e: Export, files: seq<TraceFile>, corpus: seq<Scenario>, includeRehearsal: bool, ordered: seq<TraceInvocation>)
    requires Exported(e, files, corpus, includeRehearsal, ordered)
    ensures HoldoutClean(Loaded(e), corpus) <==> HoldoutsSurvive(corpus)
    ensures UniqueNames(corpus) ==> HoldoutClean(Loaded(e), corpus)
  {
    RecordsReadBack(e.trajectories);
    NothingRefusedIsEmitted(e, files, corpus, includeRehearsal, ordered);
    SortedListsTheSet(RefusedIds(corpus));
    if UniqueNames(corpus) {
      UniqueNamesHideNothing(corpus);
    }
    CleanIfSameIds(e, corpus);
    SurvivorsAreRefused(corpus);
  }

  lemma CleanIfSameIds(e: Export, corpus: seq<Scenario>)
    requires Records(LinesFor(e.trajectories)) == e.trajectories
    requires forall t <- e.trajectories :: !Contaminates(t, RefusedIds(corpus), ByName(corpus))
    requires e.manifest.exportedTemplateIds == Texts.Sorted(TemplatesOf(e.trajectories))
    requires Lists(e.manifest.holdoutTemplateIdsInCorpus, RefusedIds(corpus))
    ensures HoldoutClean(Loaded(e), corpus) <==> HoldoutIds(WholeCorpus(corpus)) == RefusedIds(corpus)
  {
    var whole := HoldoutIds(WholeCorpus(corpus));
    ListedOnce(e.manifest.holdoutTemplateIdsInCorpus, whole, RefusedIds(corpus));
    if whole == RefusedIds(corpus) {
      NoTemplateIsOut(e.trajectories, whole, ByName(corpus));
    }
  }

  lemma ListedOnce(listed: seq<string>, a: set<string>, b: set<string>)
    requires Lists(listed, b)
    ensures Lists(listed, a) <==> a == b
  {
    if multiset(a) == multiset(b) {
      SameMultiset(a, b);
    }
  }

  lemma NoTemplateIsOut(trajectories: seq<Trajectory>, heldOut: set<string>, byName: map<string, Scenario>)
    requires forall t <- trajectories :: !Contaminates(t, heldOut, byName)
    ensures forall template <- Texts.Sorted(TemplatesOf(trajectories)) :: template !in heldOut
  {
    assert forall template <- Texts.Sorted(TemplatesOf(trajectories)) :: template in TemplatesOf(trajectories);
  }

  lemma SameMultiset(a: set<string>, b: set<string>)
    requires multiset(a) == multiset(b)
    ensures a == b
  {
    forall x ensures x in a <==> x in b {
      assert x in multiset(a) <==> x in multiset(b);
    }
  }

  // ----- Conservation -----

  /** Every attempt read is one trajectory or one refused rehearsal. */
  lemma AttemptsAreAccountedFor(
      e: Export, files: seq<TraceFile>, corpus: seq<Scenario>, includeRehearsal: bool, ordered: seq<TraceInvocation>)
    requires Exported(e, files, corpus, includeRehearsal, ordered)
    ensures e.manifest.trajectoryCount + e.manifest.rehearsalRefused == |AllInvocations(files)|
    ensures |e.trajectories| == |e.labels| == e.manifest.trajectoryCount
  {
    var found := AllInvocations(files);
    KeptAreFound(found);
    assert |multiset(ordered)| == |ordered|;
    assert |multiset(ToExport(found, includeRehearsal))| == |ToExport(found, includeRehearsal)|;
  }

  // ----- The export in the corpus's and the lines' own terms -----

  /** The last scenario of its name. */
  predicate Stands(corpus: seq<Scenario>, i: nat) {
    i < |corpus| && forall j :: i < j < |corpus| ==> corpus[j].name != corpus[i].name
  }

  lemma StandsInInit(corpus: seq<Scenario>, i: nat)
    requires corpus != [] && i < |corpus| - 1
    ensures Stands(corpus, i) <==>
      Stands(corpus[..|corpus| - 1], i) && corpus[i].name != corpus[|corpus| - 1].name
  {
    var init := corpus[..|corpus| - 1];
    if Stands(init, i) && corpus[i].name != corpus[|corpus| - 1].name {
      forall j | i < j < |corpus| ensures corpus[j].name != corpus[i].name {
        assert j < |init| ==> init[j].name != init[i].name;
      }
    }
    if Stands(corpus, i) {
      forall j | i < j < |init| ensures init[j].name != init[i].name {
        assert corpus[j].name != corpus[i].name;
      }
    }
  }

  lemma {:induction false} StandingIsByName(corpus: seq<Scenario>, i: nat)
    requires Stands(corpus, i)
    ensures corpus[i].name in ByName(corpus) && ByName(corpus)[corpus[i].name] == corpus[i]
  {
    if i < |corpus| - 1 {
      StandsInInit(corpus, i);
      StandingIsByName(corpus[..|corpus| - 1], i);
    }
  }

  lemma {:induction false} ByNameIsStanding(corpus: seq<Scenario>, name: string) returns (i: nat)
    requires name in ByName(corpus)
    ensures Stands(corpus, i) && corpus[i].name == name
  {
    var n := |corpus| - 1;
    if corpus[n].name == name {
      i := n;
    } else {
      i := ByNameIsStanding(corpus[..n], name);
      StandsInInit(corpus, i);
    }
  }

  lemma ByNameStands(corpus: seq<Scenario>)
    ensures forall i: nat :: Stands(corpus, i) ==>
      corpus[i].name in ByName(corpus) && ByName(corpus)[corpus[i].name] == corpus[i]
    ensures forall name <- ByName(corpus) :: exists i: nat :: Stands(corpus, i) && corpus[i].name == name
  {
    forall i: nat | Stands(corpus, i)
      ensures corpus[i].name in ByName(corpus) && ByName(corpus)[corpus[i].name] == corpus[i] {
      StandingIsByName(corpus, i);
    }
    forall name | name in ByName(corpus) ensures exists i: nat :: Stands(corpus, i) && corpus[i].name == name {
      var i := ByNameIsStanding(corpus, name);
    }
  }

  /** A scenario whose template is held out, by itself or by another scenario. */
  ghost predicate HeldOutTemplate(corpus: seq<Scenario>, template: string) {
    exists j: nat :: Stands(corpus, j) && corpus[j].split == "holdout" && corpus[j].templateId == template
  }

  /** The last scenario of this name is not held out and shares no template with one that is. */
  ghost predicate Allowed(corpus: seq<Scenario>, name: string) {
    forall i: nat :: Stands(corpus, i) && corpus[i].name == name ==>
      corpus[i].split != "holdout" && !HeldOutTemplate(corpus, corpus[i].templateId)
  }

  lemma RefusedAreHeldOut(corpus: seq<Scenario>, template: string)
    ensures template in RefusedIds(corpus) <==> HeldOutTemplate(corpus, template)
  {
    ByNameStands(corpus);
    var byName := ByName(corpus);
    if template in RefusedIds(corpus) {
      var name :| name in byName && byName[name].split == HOLDOUT && byName[name].templateId == template;
      var j: nat :| Stands(corpus, j) && corpus[j].name == name;
      assert corpus[j] == byName[name];
    }
    if j: nat :| Stands(corpus, j) && corpus[j].split == "holdout" && corpus[j].templateId == template {
      assert byName[corpus[j].name] == corpus[j] && corpus[j] in byName.Values;
    }
  }

  lemma OffendsUnlessAllowed(corpus: seq<Scenario>, one: TraceInvocation)
    ensures Offends(ByName(corpus), RefusedIds(corpus), one) <==> !Allowed(corpus, one.scenario)
  {
    ByNameStands(corpus);
    var byName := ByName(corpus);
    if one.scenario in byName {
      RefusedAreHeldOut(corpus, byName[one.scenario].templateId);
      var i: nat :| Stands(corpus, i) && corpus[i].name == one.scenario;
      assert corpus[i] == byName[one.scenario];
    }
  }

  lemma {:induction false} KeptAre(found: seq<TraceInvocation>, one: TraceInvocation)
    ensures one in Kept(found) <==> one in found && !one.IsRehearsal()
  {
    if found != [] {
      var init, last := found[..|found| - 1], found[|found| - 1];
      assert found == init + [last];
      KeptAre(init, one);
    }
  }

  lemma {:induction false} AllAre(files: seq<TraceFile>, one: TraceInvocation)
    requires AllReadable(files)
    ensures one in AllInvocations(files) <==> exists file <- files :: Readable(file) && one in Invocations(file)
  {
    if files != [] {
      var init, last := files[..|files| - 1], files[|files| - 1];
      assert files == init + [last];
      AllAre(init, one);
    }
  }

  /** An attempt of these files that the export would emit. */
  ghost predicate Emitted(files: seq<TraceFile>, includeRehearsal: bool, one: TraceInvocation) {
    && (exists file <- files :: Readable(file) && one in Invocations(file))
    && (includeRehearsal || !one.IsRehearsal())
  }

  /** An export succeeds exactly when every file can be read, the corpus knows every attempt's scenario, and the
      scenario of each attempt it would emit is allowed. */
  lemma ExportableMeans(files: seq<TraceFile>, corpus: seq<Scenario>, includeRehearsal: bool)
    requires AllReadable(files)
    ensures Exportable(files, corpus, includeRehearsal) <==>
      && (forall one <- AllInvocations(files) :: exists scenario <- corpus :: scenario.name == one.scenario)
      && (forall one :: Emitted(files, includeRehearsal, one) ==> Allowed(corpus, one.scenario))
  {
    var found := AllInvocations(files);
    forall one ensures one in ToExport(found, includeRehearsal) <==> Emitted(files, includeRehearsal, one) {
      AllAre(files, one);
      KeptAre(found, one);
    }
    forall one: TraceInvocation
      ensures Offends(ByName(corpus), RefusedIds(corpus), one) <==> !Allowed(corpus, one.scenario)
    {
      OffendsUnlessAllowed(corpus, one);
    }
    ByNameStands(corpus);
    forall one | one in found
      ensures one.scenario in ByName(corpus) <==> exists scenario <- corpus :: scenario.name == one.scenario
    {
      if one.scenario in ByName(corpus) {
        var i: nat :| Stands(corpus, i) && corpus[i].name == one.scenario;
        assert corpus[i] in corpus;
      }
    }
  }

  lemma {:induction false} CompleteAreCounted(trajectories: seq<Trajectory>)
    ensures CompleteCount(trajectories) == |set i | 0 <= i < |trajectories| && trajectories[i].outcome.complete|
  {
    if trajectories != [] {
      var n := |trajectories| - 1;
      var init := trajectories[..n];
      CompleteAreCounted(init);
      var before := set i | 0 <= i < |init| && init[i].outcome.complete;
      var after := set i | 0 <= i < |trajectories| && trajectories[i].outcome.complete;
      assert after == before + if trajectories[n].outcome.complete then {n} else {};
    }
  }

  /** What the manifest says of the lines: how many, how many complete, and which templates, scenarios and splits they
      carry; and of the corpus, which templates it holds out. */
  lemma ManifestSays(
      e: Export, files: seq<TraceFile>, corpus: seq<Scenario>, includeRehearsal: bool, ordered: seq<TraceInvocation>)
    requires Exported(e, files, corpus, includeRehearsal, ordered)
    ensures e.manifest.trajectoryCount == |e.trajectories|
    ensures e.manifest.completeCount
      == |set i | 0 <= i < |e.trajectories| && e.trajectories[i].outcome.complete|
    ensures forall x :: x in e.manifest.exportedTemplateIds <==> exists t <- e.trajectories :: t.templateId == x
    ensures forall x :: x in e.manifest.exportedScenarios <==> exists t <- e.trajectories :: t.scenario == x
    ensures forall x :: x in e.manifest.splitsPresent <==> exists t <- e.trajectories :: t.split == x
    ensures forall x :: x in e.manifest.holdoutTemplateIdsInCorpus <==> HeldOutTemplate(corpus, x)
    ensures e.manifest.trajectoriesDigest == LinesOf(e.trajectories) && e.manifest.labelsDigest == LinesOf(e.labels)
  {
    CompleteAreCounted(e.trajectories);
    forall x ensures x in RefusedIds(corpus) <==> HeldOutTemplate(corpus, x) { RefusedAreHeldOut(corpus, x); }
  }

  /** The lines come by scenario and then by invocation, as texts. */
  lemma LinesAscend(
      e: Export, files: seq<TraceFile>, corpus: seq<Scenario>, includeRehearsal: bool, ordered: seq<TraceInvocation>,
      i: nat, j: nat)
    requires Exported(e, files, corpus, includeRehearsal, ordered) && i < j < |e.trajectories|
    ensures Texts.Less(e.trajectories[i].scenario, e.trajectories[j].scenario)
      || (e.trajectories[i].scenario == e.trajectories[j].scenario
        && Texts.Leq(e.trajectories[i].invocationId, e.trajectories[j].invocationId))
  {
    assert Renders(e.trajectories[i], ordered[i], ByName(corpus)[ordered[i].scenario]);
    assert Renders(e.trajectories[j], ordered[j], ByName(corpus)[ordered[j].scenario]);
    assert InvocationLeq(ordered[i], ordered[j]);
  }

  /** The manifest's claims, one by one, against the lines and the labels. */
  lemma ManifestAgreesMeans(d: Dataset)
    ensures ManifestAgrees(d) <==>
      var records := Records(d.lines);
      && d.manifest.trajectoriesDigest == d.trajectoryBytes && d.manifest.labelsDigest == d.labelBytes
      && d.manifest.trajectoryCount == |d.lines|
      && d.manifest.completeCount == |set i | 0 <= i < |records| && records[i].outcome.complete|
      && multiset(d.manifest.exportedTemplateIds) == multiset(set t <- records :: t.templateId)
      && multiset(d.manifest.exportedScenarios) == multiset(set t <- records :: t.scenario)
      && multiset(d.manifest.splitsPresent) == multiset(set t <- records :: t.split)
      && (forall id :: HasLine(d, id) <==> id in d.labelIds)
      && forall t <- records :: t.schemaVersion == d.manifest.schemaVersion
  {
    CompleteAreCounted(Records(d.lines));
    forall id ensures id in LineIds(d.lines) <==> HasLine(d, id) {
    }
    assert LineIds(d.lines) == LabelIds(d) <==> forall id :: id in LineIds(d.lines) <==> id in LabelIds(d);
  }

  predicate HasLine(d: Dataset, id: string) {
    exists line <- d.lines :: line.trajectoryId == id
  }

  /** What the holdout check refuses, in the corpus's own terms: a line held out by its split, its template or its
      scenario, a template the manifest lists, and a manifest that does not list the held-out templates. */
  lemma HoldoutCleanMeans(d: Dataset, corpus: seq<Scenario>)
    ensures HoldoutClean(d, corpus) <==>
      && (forall t <- Records(d.lines) :: NotHeldOut(corpus, t))
      && (forall template <- d.manifest.exportedTemplateIds :: !OnHoldout(corpus, template))
      && Lists(d.manifest.holdoutTemplateIdsInCorpus, set s <- corpus | s.split == "holdout" :: s.templateId)
  {
    assert HoldoutIds(WholeCorpus(corpus)) == set s <- corpus | s.split == "holdout" :: s.templateId;
    forall template ensures template in HoldoutIds(WholeCorpus(corpus)) <==> OnHoldout(corpus, template) {
      OnHoldoutIs(corpus, template);
    }
    forall t: Trajectory
      ensures Contaminates(t, HoldoutIds(WholeCorpus(corpus)), ByName(corpus)) <==> !NotHeldOut(corpus, t)
    {
      ContaminatesUnless(corpus, t);
    }
  }

  lemma OnHoldoutIs(corpus: seq<Scenario>, template: string)
    ensures template in HoldoutIds(WholeCorpus(corpus)) <==> OnHoldout(corpus, template)
  {
  }

  lemma ContaminatesUnless(corpus: seq<Scenario>, t: Trajectory)
    ensures Contaminates(t, HoldoutIds(WholeCorpus(corpus)), ByName(corpus)) <==> !NotHeldOut(corpus, t)
  {
    OnHoldoutIs(corpus, t.templateId);
    ByNameStands(corpus);
    if t.scenario in ByName(corpus) {
      var i: nat :| Stands(corpus, i) && corpus[i].name == t.scenario;
      assert corpus[i] == ByName(corpus)[t.scenario];
    }
  }

  ghost predicate NotHeldOut(corpus: seq<Scenario>, t: Trajectory) {
    && t.split != "holdout" && !OnHoldout(corpus, t.templateId)
    && forall i: nat :: Stands(corpus, i) && corpus[i].name == t.scenario ==> corpus[i].split != "holdout"
  }

  /** Some scenario of the corpus holds this template out, whether or not it is the last of its name. */
  predicate OnHoldout(corpus: seq<Scenario>, template: string) {
    exists s <- corpus :: s.split == "holdout" && s.templateId == template
  }

  // ----- One line and its labels -----

  /** Where no scenario's name holds a colon, two lines share an id only when they are of one attempt. */
  lemma LinesAreNamedApart(
      a: TraceInvocation, b: TraceInvocation, s: Scenario, s': Scenario, x: Trajectory, y: Trajectory)
    requires Renders(x, a, s) && Renders(y, b, s') && ':' !in a.scenario && ':' !in b.scenario
    ensures x.trajectoryId == y.trajectoryId <==> a.scenario == b.scenario && a.invocationId == b.invocationId
  {
    if x.trajectoryId == y.trajectoryId {
      Texts.CutAtTheFirst(a.scenario, a.invocationId, b.scenario, b.invocationId, ':');
    }
  }

  /** The labels of a line are that line's own. */
  lemma LabelsAreTheLines(
      e: Export, files: seq<TraceFile>, corpus: seq<Scenario>, includeRehearsal: bool, ordered: seq<TraceInvocation>,
      i: nat)
    requires Exported(e, files, corpus, includeRehearsal, ordered) && i < |e.trajectories|
    ensures i < |e.labels| && e.labels[i].trajectoryId == e.trajectories[i].trajectoryId
    ensures e.labels[i].scenario == e.trajectories[i].scenario && e.labels[i].split == e.trajectories[i].split
    ensures e.labels[i].templateId == e.trajectories[i].templateId
  {
    assert Renders(e.trajectories[i], ordered[i], ByName(corpus)[ordered[i].scenario]);
  }
}
