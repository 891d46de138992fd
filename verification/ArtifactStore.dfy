/** The versioned store of evals/artifacts.py: where a write lands, where reads look, and why no
    write replaces evidence. */
module ArtifactStore {
  import opened Wrappers
  import opened ArtifactNames
  import opened Texts
  import opened Sorting

  // ----- Kinds -----

  datatype Grouping = Flat | ByScenario | ByMonth

  datatype ArtifactKind = ArtifactKind(
    parts: seq<string>, suffix: string, fixedStem: Option<string>, legacyName: Option<string>,
    folder: Option<string>, grouping: Grouping)
  {
    predicate Sound() {
      && suffix != "" && suffix[0] == '.' && '/' !in suffix
      && (forall part <- parts :: Plain(part))
      && (fixedStem.Some? ==> Plain(fixedStem.value))
      && (folder.Some? ==> Plain(folder.value))
      && (legacyName.Some? ==>
        fixedStem.Some? && Plain(legacyName.value) && !(fixedStem.value + "." <= legacyName.value))
    }
  }

  datatype Family =
    | Trajectory | Briefing | Human | Report | Dossier
    | BaselineReport | BaselineReportMd | PhaseCloseReport | PhaseCloseReportMd
    | ResearchReport | ResearchReportMd | RegradeReport | RegradeReportMd
    | WorldDriftTable | WorldDriftTableMd | OracleGapReport | OracleGapReportMd
    | JudgeCalibration | RecordedWorld | RecordedWorldTruth
    | TrainingExport | TrainingExportLabels | TrainingExportManifest

  function PerScenario(parts: seq<string>, suffix: string, grouping: Grouping): ArtifactKind {
    ArtifactKind(parts, suffix, None, None, None, grouping)
  }

  function PerRun(suffix: string, stem: string, folder: string): ArtifactKind {
    ArtifactKind(["evals", "reports"], suffix, Some(stem), None, Some(folder), Flat)
  }

  function Export(suffix: string): ArtifactKind {
    ArtifactKind(["evals", "exports"], suffix, Some("training_export"), None, None, Flat)
  }

  /** The registry: every family's container, suffix and grouping. */
  function KindOf(family: Family): ArtifactKind {
    match family
    case Trajectory => PerScenario(["evals", "trajectories"], ".json", Flat)
    case Briefing => PerScenario(["evals", "briefings"], ".json", Flat)
    case Human => PerScenario(["evals", "reports", "human"], ".txt", ByScenario)
    case Report => ArtifactKind(["evals", "reports"], ".json", Some("report"), Some("latest.json"), Some("runs"),
      ByMonth)
    case Dossier => PerScenario(["evals", "reports", "dossiers"], ".md", ByScenario)
    case BaselineReport => PerRun(".json", "baseline_report", "baseline")
    case BaselineReportMd => PerRun(".md", "baseline_report", "baseline")
    case PhaseCloseReport => PerRun(".json", "phase_close_report", "phase-close")
    case PhaseCloseReportMd => PerRun(".md", "phase_close_report", "phase-close")
    case ResearchReport => PerRun(".json", "research_report", "research")
    case ResearchReportMd => PerRun(".md", "research_report", "research")
    case RegradeReport => PerRun(".json", "regrade_report", "regrades")
    case RegradeReportMd => PerRun(".md", "regrade_report", "regrades")
    case WorldDriftTable => PerRun(".json", "world_drift_table", "world-drift")
    case WorldDriftTableMd => PerRun(".md", "world_drift_table", "world-drift")
    case OracleGapReport => PerRun(".json", "oracle_gap_report", "oracle-gap")
    case OracleGapReportMd => PerRun(".md", "oracle_gap_report", "oracle-gap")
    case JudgeCalibration => PerScenario(["evals", "reports", "judge-calibration"], ".json", ByScenario)
    case RecordedWorld => PerScenario(["evals", "recorded_worlds"], ".json", ByScenario)
    case RecordedWorldTruth => PerScenario(["evals", "recorded_worlds"], ".truth.json", ByScenario)
    case TrainingExport => Export(".jsonl")
    case TrainingExportLabels => Export(".labels.jsonl")
    case TrainingExportManifest => Export(".manifest.json")
  }

  /** The stems and folders of the per-run families. */
  const RUN_NAMES: set<string> := {
    "report", "baseline_report", "phase_close_report", "research_report", "regrade_report", "world_drift_table",
    "oracle_gap_report", "training_export", "runs", "baseline", "phase-close", "research", "regrades",
    "world-drift", "oracle-gap"}

  lemma RunNamesArePlain(name: string)
    requires name in RUN_NAMES
    ensures Plain(name)
  {
  }

  lemma RegisteredNames(family: Family)
    ensures KindOf(family).fixedStem.Some? ==> Plain(KindOf(family).fixedStem.value)
    ensures KindOf(family).folder.Some? ==> Plain(KindOf(family).folder.value)
  {
    var kind := KindOf(family);
    assert kind.fixedStem.Some? ==> kind.fixedStem.value in RUN_NAMES;
    assert kind.folder.Some? ==> kind.folder.value in RUN_NAMES;
    if kind.fixedStem.Some? { RunNamesArePlain(kind.fixedStem.value); }
    if kind.folder.Some? { RunNamesArePlain(kind.folder.value); }
  }

  lemma RegisteredContainers(family: Family)
    ensures forall part <- KindOf(family).parts :: Plain(part)
  {
  }

  lemma RegisteredSuffixes(family: Family)
    ensures var suffix := KindOf(family).suffix; suffix != "" && suffix[0] == '.' && '/' !in suffix
  {
  }

  lemma EveryFamilyIsSound(family: Family)
    ensures KindOf(family).Sound()
  {
    RegisteredNames(family);
    RegisteredContainers(family);
    RegisteredSuffixes(family);
    if family == Report {
      assert "latest.json"[0] != "report"[0];
    }
  }

  // ----- Places -----

  /** A file or directory, by the names from the root down. */
  type Place = seq<string>

  predicate Plain(name: string) {
    name != "" && name != "." && name != ".." && '/' !in name
  }

  predicate IsPlace(place: Place) {
    forall name <- place :: Plain(name)
  }

  /** `base / text`: an absolute text starts over, and dots are resolved. */
  function Resolve(base: Place, text: string): (place: Place)
    requires IsPlace(base)
    ensures IsPlace(place)
  {
    Follow(if text != "" && text[0] == '/' then [] else base, "", text)
  }

  function Follow(base: Place, name: string, rest: string): (place: Place)
    requires IsPlace(base) && '/' !in name
    ensures IsPlace(place)
    decreases |rest|
  {
    if rest == "" then Enter(base, name)
    else if rest[0] == '/' then Follow(Enter(base, name), "", rest[1..])
    else Follow(base, name + [rest[0]], rest[1..])
  }

  function Enter(base: Place, name: string): (place: Place)
    requires IsPlace(base) && '/' !in name
    ensures IsPlace(place)
  {
    if name == "" || name == "." then base
    else if name == ".." then (if base == [] then [] else base[..|base| - 1])
    else base + [name]
  }

  lemma {:induction false} FollowPlain(base: Place, name: string, rest: string)
    requires IsPlace(base) && Plain(name + rest) && '/' !in name
    ensures Follow(base, name, rest) == base + [name + rest]
    decreases |rest|
  {
    if rest == "" {
      assert name + rest == name;
    } else {
      assert rest[0] == (name + rest)[|name|];
      assert name + [rest[0]] + rest[1..] == name + rest;
      FollowPlain(base, name + [rest[0]], rest[1..]);
    }
  }

  lemma ResolvePlain(base: Place, name: string)
    requires IsPlace(base) && Plain(name)
    ensures Resolve(base, name) == base + [name]
  {
    assert name[0] in name;
    assert "" + name == name;
    FollowPlain(base, "", name);
  }

  /** An absolute text starts over from the root. */
  lemma ResolveAbsolute(base: Place, name: string)
    requires IsPlace(base) && Plain(name)
    ensures Resolve(base, "/" + name) == [name]
  {
    assert ("/" + name)[1..] == name && "" + name == name;
    FollowPlain([], "", name);
  }

  /** And one that begins with two dots goes a directory up. */
  lemma ResolveUp(base: Place, name: string)
    requires IsPlace(base) && Plain(name)
    ensures Resolve(base, "../" + name) == (if base == [] then [] else base[..|base| - 1]) + [name]
  {
    var up := if base == [] then [] else base[..|base| - 1];
    assert ("../" + name)[1..] == "./" + name && ("./" + name)[1..] == "/" + name && ("/" + name)[1..] == name;
    assert "" + name == name && "" + ['.'] == "." && "." + ['.'] == "..";
    FollowPlain(up, "", name);
    assert Follow(base, "..", "/" + name) == Follow(up, "", name);
    assert Follow(base, ".", "./" + name) == Follow(base, "..", "/" + name);
  }

  // ----- Naming a write -----

  datatype Refusal =
    | ScenarioRequired | TakesNoScenario | NotADirectoryName | NaiveTime | BadInvocation
    | NotADirectory | AlreadyThere

  function StemFor(kind: ArtifactKind, scenario: Option<string>): Result<string, Refusal> {
    if kind.fixedStem.None? then
      (if scenario.None? || scenario.value == "" then Err(ScenarioRequired) else Ok(scenario.value))
    else if scenario.Some? then Err(TakesNoScenario)
    else Ok(kind.fixedStem.value)
  }

  predicate UsableComponent(value: string) {
    value != "" && '/' !in value && '\\' !in value && value[0] != '.'
  }

  function MonthText(t: Utc): string
    requires t.Valid()
  {
    YearText(t.year) + "-" + Digits(t.month, 2)
  }

  function Base(kind: ArtifactKind, container: Place): Place {
    container + if kind.folder.Some? then [kind.folder.value] else []
  }

  /** The exact directory a write lands in. */
  function WriteDirectory(kind: ArtifactKind, stem: string, when: When, container: Place): Result<Place, Refusal>
    requires when.Valid()
  {
    match kind.grouping
    case Flat => Ok(Base(kind, container))
    case ByScenario => if UsableComponent(stem) then Ok(Base(kind, container) + [stem]) else Err(NotADirectoryName)
    case ByMonth => if when.Naive? then Err(NaiveTime) else Ok(Base(kind, container) + [MonthText(when.utc)])
  }

  function VersionName(kind: ArtifactKind, stem: string, when: When, id: string): Result<string, Refusal>
    requires when.Valid()
  {
    if !IsInvocation(id) then Err(BadInvocation)
    else if when.Naive? then Err(NaiveTime)
    else Ok(VersionText(stem, StampText(when.utc), id, kind.suffix))
  }

  lemma MonthIsPlain(t: Utc)
    requires t.Valid()
    ensures Plain(MonthText(t))
  {
    assert forall c <- MonthText(t) :: IsDigit(c) || c == '-';
    assert |MonthText(t)| >= 4;
  }

  lemma {:induction false} DigitsTell(n: nat, m: nat, width: nat)
    requires n < Power(width) && m < Power(width)
    ensures Digits(n, width) == Digits(m, width) <==> n == m
  {
    if n < m {
      DigitsFollow(n, m, width);
    } else if m < n {
      DigitsFollow(m, n, width);
    }
  }

  lemma YearsTell(a: int, b: int)
    requires 1 <= a <= 9999 && 1 <= b <= 9999 && YearText(a) == YearText(b)
    ensures a == b
  {
    assert Power(1) == 10 && Power(2) == 100 && Power(3) == 1000 && Power(4) == 10000;
    DigitsTell(a, b, |YearText(a)|);
  }

  /** Two writes of a family grouped by month share a directory exactly when they are of one month. */
  lemma MonthsApart(kind: ArtifactKind, stem: string, stem': string, a: Utc, b: Utc, container: Place)
    requires kind.grouping.ByMonth? && a.Valid() && b.Valid()
    ensures WriteDirectory(kind, stem, Aware(a), container) == WriteDirectory(kind, stem', Aware(b), container) <==>
      a.year == b.year && a.month == b.month
  {
    var x, y := MonthText(a), MonthText(b);
    assert Power(1) == 10 && Power(2) == 100;
    assert x[..|x| - 3] == YearText(a.year) && x[|x| - 2..] == Digits(a.month, 2);
    assert y[..|y| - 3] == YearText(b.year) && y[|y| - 2..] == Digits(b.month, 2);
    if x == y {
      YearsTell(a.year, b.year);
      DigitsTell(a.month, b.month, 2);
    }
    var base := Base(kind, container);
    assert (base + [x])[|base|] == x && (base + [y])[|base|] == y;
  }

  lemma WriteDirectoryIsAPlace(kind: ArtifactKind, stem: string, when: When, container: Place)
    requires kind.Sound() && when.Valid() && IsPlace(container) && WriteDirectory(kind, stem, when, container).Ok?
    ensures IsPlace(WriteDirectory(kind, stem, when, container).value)
  {
    if when.Aware? {
      MonthIsPlain(when.utc);
    }
  }

  datatype Write = Write(kind: ArtifactKind, scenario: Option<string>, content: string, when: When, id: string,
    container: Place)
  {
    predicate Valid() {
      kind.Sound() && when.Valid() && IsPlace(container)
    }
  }

  function VersionPath(w: Write): (path: Result<Place, Refusal>)
    requires w.Valid()
    ensures path.Ok? ==> IsPlace(path.value)
  {
    var stem := StemFor(w.kind, w.scenario);
    if stem.Err? then Err(stem.error)
    else
      var directory := WriteDirectory(w.kind, stem.value, w.when, w.container);
      var name := VersionName(w.kind, stem.value, w.when, w.id);
      if directory.Err? then Err(directory.error)
      else if name.Err? then Err(name.error)
      else
        WriteDirectoryIsAPlace(w.kind, stem.value, w.when, w.container);
        Ok(Resolve(directory.value, name.value))
  }

  /** A scenario is named exactly where the family has no stem of its own. */
  predicate ScenarioFits(w: Write) {
    match w.scenario
    case None => w.kind.fixedStem.Some?
    case Some(name) => w.kind.fixedStem.None? && name != ""
  }

  /** The scenario can be a directory: no slash of either kind in it and no dot before it. */
  predicate DirectoryFits(w: Write) {
    w.kind.grouping.ByScenario? && w.scenario.Some? ==>
      '/' !in w.scenario.value && '\\' !in w.scenario.value && !("." <= w.scenario.value)
  }

  /** An invocation id is letters, digits, hyphens and underscores, and at least one of them. */
  predicate IdFits(w: Write) {
    w.id != "" && forall c <- w.id ::
      '0' <= c <= '9' || 'A' <= c <= 'Z' || 'a' <= c <= 'z' || c == '-' || c == '_'
  }

  /** A write is given a path exactly when its scenario, its directory, its time and its id all fit; and refused for
      the first of them that does not. */
  lemma PathsAreGivenWhere(w: Write)
    requires w.Valid() && (w.kind.grouping.ByScenario? ==> w.kind.fixedStem.None?)
    ensures VersionPath(w).Ok? <==> ScenarioFits(w) && DirectoryFits(w) && IdFits(w) && w.when.Aware?
    ensures !ScenarioFits(w) ==> VersionPath(w).error == if w.scenario.Some? && w.kind.fixedStem.Some?
      then TakesNoScenario else ScenarioRequired
    ensures ScenarioFits(w) && !DirectoryFits(w) ==> VersionPath(w) == Err(NotADirectoryName)
    ensures ScenarioFits(w) && DirectoryFits(w) && !(w.kind.grouping.ByMonth? && w.when.Naive?) && !IdFits(w) ==>
      VersionPath(w) == Err(BadInvocation)
    ensures ScenarioFits(w) && DirectoryFits(w) && (w.kind.grouping.ByMonth? || IdFits(w)) && w.when.Naive? ==>
      VersionPath(w) == Err(NaiveTime)
  {
  }

  // ----- The disk -----

  datatype Disk = Disk(files: map<Place, string>, dirs: set<Place>)

  function Parent(place: Place): Place
    requires place != []
  {
    place[..|place| - 1]
  }

  function Upwards(place: Place): set<Place> {
    set k | 0 <= k <= |place| :: place[..k]
  }

  ghost predicate Sane(disk: Disk) {
    && [] in disk.dirs
    && (forall file <- disk.files :: file != [] && IsPlace(file) && Parent(file) in disk.dirs && file !in disk.dirs)
    && forall dir <- disk.dirs :: IsPlace(dir) && (dir != [] ==> Parent(dir) in disk.dirs)
  }

  /** `write_versioned`: the path is made, its directory with it, and the file only if nothing is there. */
  function Written(disk: Disk, w: Write): (out: (Result<Place, Refusal>, Disk))
    requires w.Valid()
  {
    var path := VersionPath(w);
    if path.Err? || path.value == [] then (if path.Err? then path else Err(AlreadyThere), disk)
    else if Upwards(Parent(path.value)) !! disk.files.Keys then
      var made := Disk(disk.files, disk.dirs + Upwards(Parent(path.value)));
      if path.value in disk.files || path.value in disk.dirs then (Err(AlreadyThere), made)
      else (path, Disk(disk.files[path.value := w.content], made.dirs))
    else (Err(NotADirectory), disk)
  }

  class FileStore {
    var files: map<Place, string>
    var dirs: set<Place>

    ghost function Contents(): Disk
      reads this
    {
      Disk(files, dirs)
    }

    method MakeDirectories(place: Place) returns (made: bool)
      modifies this`dirs
      ensures made == (Upwards(place) !! files.Keys)
      ensures dirs == if made then old(dirs) + Upwards(place) else old(dirs)
    {
      for k := 0 to |place| + 1
        invariant forall i :: 0 <= i < k ==> place[..i] !in files
        invariant dirs == old(dirs)
      {
        if place[..k] in files {
          assert place[..k] in Upwards(place);
          return false;
        }
      }
      dirs := dirs + Upwards(place);
      made := true;
    }

    /** A successful write adds one file where nothing was; a refused one leaves every file as it was. */
    method WriteVersioned(w: Write) returns (path: Result<Place, Refusal>)
      requires w.Valid()
      modifies this
      ensures (path, Contents()) == Written(old(Contents()), w)
      ensures path.Ok? ==> path.value !in old(files) && files == old(files)[path.value := w.content]
      ensures path.Err? ==> files == old(files)
    {
      path := VersionPath(w);
      if path.Err? {
        return;
      }
      if path.value == [] {
        return Err(AlreadyThere);
      }
      var made := MakeDirectories(Parent(path.value));
      if !made {
        return Err(NotADirectory);
      }
      assert forall d <- Upwards(Parent(path.value)) :: |d| < |path.value|;
      if path.value in files || path.value in dirs {
        return Err(AlreadyThere);
      }
      files := files[path.value := w.content];
    }

    /** Every listed file of the family, oldest first. */
    method Versions(kind: ArtifactKind, scenario: Option<string>, container: Place)
      returns (found: Result<seq<Place>, Refusal>)
      requires kind.Sound() && IsPlace(container) && Sane(Contents())
      ensures found.Err? ==> StemFor(kind, scenario) == Err(found.error)
      ensures found.Ok? ==> StemFor(kind, scenario).Ok?
      ensures found.Ok? ==> Lists(Contents(), kind, StemFor(kind, scenario).value, container, found.value)
    {
      var stem := StemFor(kind, scenario);
      if stem.Err? {
        return Err(stem.error);
      }
      var targets := SearchDirectories(kind, stem.value, container);
      var members: seq<Place> := [];
      for i := 0 to |targets|
        invariant forall p :: p in members <==> IsMember(Contents(), kind, stem.value, targets[..i], p)
        invariant Distinct(members)
      {
        assert targets[..i + 1] == targets[..i] + [targets[i]];
        var more := Members(kind, stem.value, targets[i]);
        DistinctJoin(members, more, targets[..i], targets[i]);
        members := members + more;
      }
      assert targets[..|targets|] == targets;
      LeqIsTotal(kind, stem.value);
      var sorted := Sort((a, b) => PathLeq(kind, stem.value, a, b), members);
      SortedLists(Contents(), kind, stem.value, container, targets, members, sorted);
      return Ok(sorted);
    }

    /** `newest_or_none`: a version no other version of the artifact sorts after, if there is any. */
    method Newest(kind: ArtifactKind, scenario: Option<string>, container: Place)
      returns (newest: Result<Option<Place>, Refusal>)
      requires kind.Sound() && IsPlace(container) && Sane(Contents())
      ensures newest.Err? ==> StemFor(kind, scenario) == Err(newest.error)
      ensures newest.Ok? ==> StemFor(kind, scenario).Ok?
      ensures newest.Ok? ==> IsNewest(Contents(), kind, StemFor(kind, scenario).value, container, newest.value)
    {
      var found := Versions(kind, scenario, container);
      if found.Err? {
        return Err(found.error);
      }
      if found.value == [] {
        LastIsNewest(Contents(), kind, StemFor(kind, scenario).value, container, found.value);
        return Ok(None);
      }
      LastIsNewest(Contents(), kind, StemFor(kind, scenario).value, container, found.value);
      return Ok(Some(found.value[|found.value| - 1]));
    }

    /** The members directly inside one directory, in whatever order the directory gives them. */
    method Members(kind: ArtifactKind, stem: string, target: Place) returns (members: seq<Place>)
      ensures forall p :: p in members <==> IsMember(Contents(), kind, stem, [target], p)
      ensures Distinct(members)
    {
      members := [];
      if target !in dirs {
        return;
      }
      var todo := set p | p in files && p != [] && Parent(p) == target;
      while todo != {}
        invariant forall p ::
          p in members || (p in todo && KeyOf(kind, stem, p).Some?) <==> IsMember(Contents(), kind, stem, [target], p)
        invariant forall p <- members :: p !in todo
        invariant forall p <- todo :: p in files && p != []
        invariant Distinct(members)
      {
        var p :| p in todo;
        todo := todo - {p};
        if KeyOf(kind, stem, p).Some? {
          members := members + [p];
        }
      }
    }

    /** Where reads look: the container, and below it wherever the family's writes may land. */
    method SearchDirectories(kind: ArtifactKind, stem: string, container: Place) returns (found: seq<Place>)
      requires kind.Sound() && IsPlace(container)
      ensures forall d :: d in found <==> d in SearchSet(Contents(), kind, stem, container)
      ensures Distinct(found)
    {
      var base := Base(kind, container);
      found := [container];
      match kind.grouping
      case ByScenario =>
        found := AddNew(found, Resolve(base, stem));
        found := AddNew(found, Resolve(base + [SUPERSEDED], stem));
      case ByMonth =>
        if base in dirs {
          var todo := set d | d in dirs && d != [] && Parent(d) == base;
          ghost var all := todo;
          while todo != {}
            invariant todo <= all && forall d :: d in found <==> d == container || d in all - todo
            invariant Distinct(found)
          {
            var d :| d in todo;
            todo := todo - {d};
            found := AddNew(found, d);
          }
        }
      case Flat => found := AddNew(found, base);
    }
  }

  predicate Distinct(places: seq<Place>) {
    forall i, j :: 0 <= i < j < |places| ==> places[i] != places[j]
  }

  lemma DistinctJoin(members: seq<Place>, more: seq<Place>, before: seq<Place>, target: Place)
    requires Distinct(members) && Distinct(more) && target !in before
    requires forall p <- members :: p != [] && Parent(p) in before
    requires forall p <- more :: p != [] && Parent(p) == target
    ensures Distinct(members + more)
  {
    var all := members + more;
    forall i, j | 0 <= i < j < |all| ensures all[i] != all[j] {
      if i < |members| <= j {
        assert members[i] in members && more[j - |members|] in more;
      }
    }
  }

  method AddNew(found: seq<Place>, d: Place) returns (out: seq<Place>)
    requires Distinct(found)
    ensures forall x :: x in out <==> x in found || x == d
    ensures Distinct(out)
  {
    out := if d in found then found else found + [d];
  }

  // ----- Reading -----

  const SUPERSEDED: string := "_superseded"

  /** Rank 0 is the un-versioned file a family had before it was versioned. */
  datatype VersionKey = VersionKey(rank: int, stamp: string, id: string)

  function LegacyName(kind: ArtifactKind, stem: string): string {
    if kind.legacyName.Some? then kind.legacyName.value else stem + kind.suffix
  }

  function OrderKey(kind: ArtifactKind, stem: string, name: string): Option<VersionKey>
    requires kind.suffix != ""
  {
    if !EndsWith(name, kind.suffix) then None
    else if name == LegacyName(kind, stem) then Some(VersionKey(0, "", ""))
    else
      var parsed := ParseVersionName(name, kind.suffix);
      if parsed.None? || parsed.value.stem != stem then None
      else Some(VersionKey(1, parsed.value.stamp, parsed.value.invocationId))
  }

  function KeyOf(kind: ArtifactKind, stem: string, file: Place): Option<VersionKey>
  {
    if file == [] || kind.suffix == "" then None else OrderKey(kind, stem, file[|file| - 1])
  }

  function SortKey(kind: ArtifactKind, stem: string, file: Place): VersionKey {
    var key := KeyOf(kind, stem, file);
    if key.Some? then key.value else VersionKey(0, "", "")
  }

  function SearchSet(disk: Disk, kind: ArtifactKind, stem: string, container: Place): set<Place>
    requires kind.Sound() && IsPlace(container)
  {
    {container} + match kind.grouping
      case Flat => {Base(kind, container)}
      case ByScenario => {Resolve(Base(kind, container), stem), Resolve(Base(kind, container) + [SUPERSEDED], stem)}
      case ByMonth =>
        if Base(kind, container) in disk.dirs then
          set d | d in disk.dirs && d != [] && Parent(d) == Base(kind, container)
        else {}
  }

  predicate IsMember(disk: Disk, kind: ArtifactKind, stem: string, targets: seq<Place>, p: Place) {
    p in disk.files && p != [] && Parent(p) in disk.dirs && Parent(p) in targets && KeyOf(kind, stem, p).Some?
  }

  predicate Listed(disk: Disk, kind: ArtifactKind, stem: string, container: Place, p: Place)
    requires kind.Sound() && IsPlace(container)
  {
    p in disk.files && p != [] && Parent(p) in SearchSet(disk, kind, stem, container) && KeyOf(kind, stem, p).Some?
  }

  predicate KeyLeq(a: VersionKey, b: VersionKey) {
    if a.rank != b.rank then a.rank < b.rank
    else if a.stamp != b.stamp then Leq(a.stamp, b.stamp)
    else Leq(a.id, b.id)
  }

  function PathText(p: Place): string {
    if p == [] then "" else PathText(p[..|p| - 1]) + "/" + p[|p| - 1]
  }

  /** By key, and by the path's text where two copies have one key. */
  predicate PathLeq(kind: ArtifactKind, stem: string, a: Place, b: Place) {
    var x, y := SortKey(kind, stem, a), SortKey(kind, stem, b);
    if x != y then KeyLeq(x, y) else Leq(PathText(a), PathText(b))
  }

  ghost predicate Lists(disk: Disk, kind: ArtifactKind, stem: string, container: Place, found: seq<Place>)
    requires kind.Sound() && IsPlace(container)
  {
    && (forall p :: p in found <==> Listed(disk, kind, stem, container, p))
    && InOrder(kind, stem, found)
  }

  /** No version at all, or a listed one that every other sorts before. */
  ghost predicate IsNewest(disk: Disk, kind: ArtifactKind, stem: string, container: Place, newest: Option<Place>)
    requires kind.Sound() && IsPlace(container)
  {
    match newest
    case None => forall p :: !Listed(disk, kind, stem, container, p)
    case Some(last) =>
      && Listed(disk, kind, stem, container, last)
      && forall p :: Listed(disk, kind, stem, container, p) && p != last ==> PathLeq(kind, stem, p, last)
  }

  lemma LastIsNewest(disk: Disk, kind: ArtifactKind, stem: string, container: Place, found: seq<Place>)
    requires kind.Sound() && IsPlace(container) && Lists(disk, kind, stem, container, found)
    ensures IsNewest(disk, kind, stem, container, if found == [] then None else Some(found[|found| - 1]))
  {
    if found == [] {
      assert forall p :: Listed(disk, kind, stem, container, p) ==> p in found;
    } else {
      var last := found[|found| - 1];
      assert last in found;
      forall p | Listed(disk, kind, stem, container, p) && p != last ensures PathLeq(kind, stem, p, last) {
        var i :| 0 <= i < |found| && found[i] == p;
      }
    }
  }

  ghost predicate InOrder(kind: ArtifactKind, stem: string, found: seq<Place>) {
    forall i, j :: 0 <= i < j < |found| ==> PathLeq(kind, stem, found[i], found[j]) && found[i] != found[j]
  }

  lemma KeyLeqTotal(a: VersionKey, b: VersionKey)
    ensures KeyLeq(a, b) || KeyLeq(b, a)
  {
    Total(a.stamp, b.stamp);
    Total(a.id, b.id);
  }

  lemma KeyLeqChain(a: VersionKey, b: VersionKey, c: VersionKey)
    requires KeyLeq(a, b) && KeyLeq(b, c)
    ensures KeyLeq(a, c) && (a == c ==> a == b)
  {
    if a.rank == b.rank == c.rank {
      Total(b.stamp, b.stamp);
      Total(b.id, b.id);
      Transitive(a.stamp, b.stamp, c.stamp);
      if a.stamp == c.stamp {
        Antisymmetric(a.stamp, b.stamp);
        Transitive(a.id, b.id, c.id);
        if a.id == c.id { Antisymmetric(a.id, b.id); }
      }
    }
  }

  lemma LeqIsTotal(kind: ArtifactKind, stem: string)
    ensures TotalPreorder((a, b) => PathLeq(kind, stem, a, b))
  {
    forall a, b ensures PathLeq(kind, stem, a, b) || PathLeq(kind, stem, b, a) {
      KeyLeqTotal(SortKey(kind, stem, a), SortKey(kind, stem, b));
      Total(PathText(a), PathText(b));
    }
    forall a, b, c | PathLeq(kind, stem, a, b) && PathLeq(kind, stem, b, c) ensures PathLeq(kind, stem, a, c) {
      LeqChain(kind, stem, a, b, c);
    }
  }

  lemma LeqChain(kind: ArtifactKind, stem: string, a: Place, b: Place, c: Place)
    requires PathLeq(kind, stem, a, b) && PathLeq(kind, stem, b, c)
    ensures PathLeq(kind, stem, a, c)
  {
    var x, y, z := SortKey(kind, stem, a), SortKey(kind, stem, b), SortKey(kind, stem, c);
    KeyLeqTotal(x, x);
    KeyLeqTotal(z, z);
    KeyLeqChain(x, y, z);
    if x == y == z {
      Transitive(PathText(a), PathText(b), PathText(c));
    }
  }

  lemma SortedLists(
      disk: Disk, kind: ArtifactKind, stem: string, container: Place, targets: seq<Place>, members: seq<Place>,
      sorted: seq<Place>)
    requires kind.Sound() && IsPlace(container) && Sane(disk)
    requires forall d :: d in targets <==> d in SearchSet(disk, kind, stem, container)
    requires forall p :: p in members <==> IsMember(disk, kind, stem, targets, p)
    requires Distinct(members)
    requires SortedBy((a, b) => PathLeq(kind, stem, a, b), sorted) && multiset(sorted) == multiset(members)
    ensures Lists(disk, kind, stem, container, sorted)
  {
    forall p ensures p in sorted <==> Listed(disk, kind, stem, container, p) {
      assert p in sorted <==> p in multiset(sorted);
      assert p in members <==> p in multiset(members);
    }
    forall i, j | 0 <= i < j < |sorted| ensures PathLeq(kind, stem, sorted[i], sorted[j]) && sorted[i] != sorted[j] {
      StillOnceEach(members, sorted, i, j);
      var leq := (a, b) => PathLeq(kind, stem, a, b);
      assert leq(sorted[i], sorted[j]);
    }
  }
}
