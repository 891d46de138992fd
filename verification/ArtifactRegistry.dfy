/** The registry of evals/artifacts.py as a whole: no family takes another family's writes, and none takes
    another scenario's, with one exception. */
module ArtifactRegistry {
  import opened Wrappers
  import opened ArtifactNames
  import opened ArtifactStore
  import opened ArtifactEvidence

  // ----- Families that share a place -----

  /** What is kept in one place: one family, or one document in several formats. */
  datatype Shelf =
    | Trajectories | Briefings | Humans | Runs | Dossiers | Baselines | PhaseCloses | Researches | Regrades
    | WorldDrifts | OracleGaps | Calibrations | Worlds | Exports

  function ShelfOf(family: Family): Shelf {
    match family
    case Trajectory => Trajectories
    case Briefing => Briefings
    case Human => Humans
    case Report => Runs
    case Dossier => Dossiers
    case BaselineReport | BaselineReportMd => Baselines
    case PhaseCloseReport | PhaseCloseReportMd => PhaseCloses
    case ResearchReport | ResearchReportMd => Researches
    case RegradeReport | RegradeReportMd => Regrades
    case WorldDriftTable | WorldDriftTableMd => WorldDrifts
    case OracleGapReport | OracleGapReportMd => OracleGaps
    case JudgeCalibration => Calibrations
    case RecordedWorld | RecordedWorldTruth => Worlds
    case TrainingExport | TrainingExportLabels | TrainingExportManifest => Exports
  }

  /** Names told apart by their length, first and third characters. */
  datatype Mark = Mark(length: nat, first: char, third: char)

  function MarkOf(name: string): Mark
    requires |name| > 2
  {
    Mark(|name|, name[0], name[2])
  }

  /** The names under the root that a shelf's files are kept below: below `evals`, and below that if there is
      another folder on the way. */
  function Top(shelf: Shelf): Mark {
    match shelf
    case Trajectories => Mark(12, 't', 'a')
    case Briefings => Mark(9, 'b', 'i')
    case Worlds => Mark(15, 'r', 'c')
    case Exports => Mark(7, 'e', 'p')
    case _ => Mark(7, 'r', 'p')
  }

  function Folder(shelf: Shelf): Option<Mark> {
    match shelf
    case Trajectories | Briefings | Worlds | Exports => None
    case Humans => Some(Mark(5, 'h', 'm'))
    case Runs => Some(Mark(4, 'r', 'n'))
    case Dossiers => Some(Mark(8, 'd', 's'))
    case Baselines => Some(Mark(8, 'b', 's'))
    case PhaseCloses => Some(Mark(11, 'p', 'a'))
    case Researches => Some(Mark(8, 'r', 's'))
    case Regrades => Some(Mark(8, 'r', 'g'))
    case WorldDrifts => Some(Mark(11, 'w', 'r'))
    case OracleGaps => Some(Mark(10, 'o', 'a'))
    case Calibrations => Some(Mark(17, 'j', 'd'))
  }

  lemma ShelvesApart(a: Shelf, b: Shelf)
    ensures a != b ==> Top(a) != Top(b) || (Folder(a).Some? && Folder(b).Some? && Folder(a) != Folder(b))
  {
  }

  /** The folder below the top: the kind's own third part, or the folder its files go to. */
  function FolderName(kind: ArtifactKind): Option<string> {
    if |kind.parts| > 2 then Some(kind.parts[2]) else kind.folder
  }

  /** A kind that is kept on this shelf. */
  predicate KeptOn(kind: ArtifactKind, shelf: Shelf) {
    && 2 <= |kind.parts| <= 3 && |kind.parts[1]| > 2 && MarkOf(kind.parts[1]) == Top(shelf)
    && FolderMarked(FolderName(kind), Folder(shelf))
    && LaidOut(kind)
  }

  predicate FolderMarked(name: Option<string>, mark: Option<Mark>) {
    if mark.None? then name.None? else name.Some? && |name.value| > 2 && MarkOf(name.value) == mark.value
  }

  /** One folder for the whole family, or one for each scenario, but never both. */
  predicate LaidOut(kind: ArtifactKind) {
    && (|kind.parts| == 3 ==> kind.folder.None? && kind.grouping.ByScenario?)
    && (kind.grouping.ByMonth? ==> kind.folder.Some?)
    && (kind.grouping.ByScenario? ==> kind.folder.None? && kind.fixedStem.None? && kind.legacyName.None?)
    && (kind.fixedStem.None? ==> kind.folder.None? && kind.legacyName.None?)
  }

  /** A shelf's layout, and a suffix. */
  function KindOn(shelf: Shelf, suffix: string): ArtifactKind {
    match shelf
    case Trajectories => PerScenario(["evals", "trajectories"], suffix, Flat)
    case Briefings => PerScenario(["evals", "briefings"], suffix, Flat)
    case Humans => PerScenario(["evals", "reports", "human"], suffix, ByScenario)
    case Runs => ArtifactKind(["evals", "reports"], suffix, Some("report"), Some("latest.json"), Some("runs"), ByMonth)
    case Dossiers => PerScenario(["evals", "reports", "dossiers"], suffix, ByScenario)
    case Baselines => PerRun(suffix, "baseline_report", "baseline")
    case PhaseCloses => PerRun(suffix, "phase_close_report", "phase-close")
    case Researches => PerRun(suffix, "research_report", "research")
    case Regrades => PerRun(suffix, "regrade_report", "regrades")
    case WorldDrifts => PerRun(suffix, "world_drift_table", "world-drift")
    case OracleGaps => PerRun(suffix, "oracle_gap_report", "oracle-gap")
    case Calibrations => PerScenario(["evals", "reports", "judge-calibration"], suffix, ByScenario)
    case Worlds => PerScenario(["evals", "recorded_worlds"], suffix, ByScenario)
    case Exports => Export(suffix)
  }

  lemma KindsByShelf(family: Family)
    ensures KindOf(family) == KindOn(ShelfOf(family), KindOf(family).suffix)
  {
  }

  lemma TopsAreTrue(shelf: Shelf, suffix: string)
    ensures var parts := KindOn(shelf, suffix).parts;
      2 <= |parts| <= 3 && |parts[1]| > 2 && MarkOf(parts[1]) == Top(shelf)
  {
  }

  lemma FoldersAreTrue(shelf: Shelf, suffix: string)
    ensures FolderMarked(FolderName(KindOn(shelf, suffix)), Folder(shelf))
  {
  }

  lemma LayoutsAreTrue(shelf: Shelf, suffix: string)
    ensures LaidOut(KindOn(shelf, suffix))
  {
  }

  lemma EveryFamilyIsKept(family: Family)
    ensures KeptOn(KindOf(family), ShelfOf(family)) && KindOf(family).Sound()
  {
    var shelf, suffix := ShelfOf(family), KindOf(family).suffix;
    KindsByShelf(family);
    TopsAreTrue(shelf, suffix);
    FoldersAreTrue(shelf, suffix);
    LayoutsAreTrue(shelf, suffix);
    EveryFamilyIsSound(family);
  }

  /** Two kinds of one shelf differ in their suffix alone. */
  predicate Twins(a: ArtifactKind, b: ArtifactKind) {
    && a == b.(suffix := a.suffix) && a.suffix != b.suffix
    && (a.fixedStem.Some? || a.grouping.ByScenario?)
  }

  lemma OneShelfOneLayout(shelf: Shelf, a: ArtifactKind, b: ArtifactKind)
    requires a == KindOn(shelf, a.suffix) && b == KindOn(shelf, b.suffix)
    requires |a.suffix| != |b.suffix| && !shelf.Trajectories? && !shelf.Briefings?
    ensures Twins(a, b)
  {
  }

  function SuffixLength(family: Family): nat {
    match family
    case Human => 4
    case Dossier => 3
    case BaselineReportMd | PhaseCloseReportMd | ResearchReportMd | RegradeReportMd => 3
    case WorldDriftTableMd | OracleGapReportMd => 3
    case RecordedWorldTruth => 11
    case TrainingExport => 6
    case TrainingExportLabels => 13
    case TrainingExportManifest => 14
    case _ => 5
  }

  lemma SuffixLengthsAreTrue(family: Family)
    ensures |KindOf(family).suffix| == SuffixLength(family)
  {
  }

  lemma OneShelfTwoLengths(a: Family, b: Family)
    requires ShelfOf(a) == ShelfOf(b) && a != b
    ensures SuffixLength(a) != SuffixLength(b)
  {
  }

  lemma SuffixesStartWithALetter(family: Family)
    ensures var suffix := KindOf(family).suffix; |suffix| > 1 && !IsDigit(suffix[1])
  {
  }

  // ----- Where a family writes and where it looks -----

  /** The container of a kind: its parts, below the root of the repository. */
  function Home(root: Place, kind: ArtifactKind): Place {
    root + kind.parts
  }

  predicate At(place: Place, i: nat, name: string) {
    i < |place| && place[i] == name
  }

  /** A place below the root that carries the names of this kind's files. */
  predicate Carries(root: Place, kind: ArtifactKind, place: Place)
    requires |kind.parts| >= 2
  {
    && At(place, |root| + 1, kind.parts[1])
    && (FolderName(kind).Some? ==> At(place, |root| + 2, FolderName(kind).value))
  }

  lemma WritesOnItsShelf(root: Place, kind: ArtifactKind, shelf: Shelf, stem: string, when: When)
    requires KeptOn(kind, shelf) && when.Valid() && WriteDirectory(kind, stem, when, Home(root, kind)).Ok?
    ensures Carries(root, kind, WriteDirectory(kind, stem, when, Home(root, kind)).value)
  {
  }

  /** Reads look where the kind's files are, or in the container itself. */
  lemma LooksOnItsShelf(disk: Disk, root: Place, kind: ArtifactKind, shelf: Shelf, stem: string, place: Place)
    requires KeptOn(kind, shelf) && kind.Sound() && Plain(stem) && IsPlace(Home(root, kind))
    requires place in SearchSet(disk, kind, stem, Home(root, kind))
    ensures At(place, |root| + 1, kind.parts[1])
    ensures Carries(root, kind, place) || |place| == |root| + 2
  {
    var home := Home(root, kind);
    match kind.grouping
    case Flat =>
    case ByScenario =>
      assert Base(kind, home) == home;
      ResolvePlain(home, stem);
      ResolvePlain(home + [SUPERSEDED], stem);
    case ByMonth =>
      if place != home {
        assert place == Parent(place) + [place[|place| - 1]];
      }
  }

  /** Kinds of different shelves: nothing one writes is where the other looks. */
  lemma ShelvesDoNotMeet(
      disk: Disk, root: Place, kind: ArtifactKind, shelf: Shelf, stem: string, when: When,
      other: ArtifactKind, shelf': Shelf, stem': string)
    requires KeptOn(kind, shelf) && KeptOn(other, shelf') && shelf != shelf' && other.Sound()
    requires when.Valid() && Plain(stem') && IsPlace(Home(root, other))
    requires WriteDirectory(kind, stem, when, Home(root, kind)).Ok?
    ensures WriteDirectory(kind, stem, when, Home(root, kind)).value
      !in SearchSet(disk, other, stem', Home(root, other))
  {
    var place := WriteDirectory(kind, stem, when, Home(root, kind)).value;
    WritesOnItsShelf(root, kind, shelf, stem, when);
    ShelvesApart(shelf, shelf');
    if place in SearchSet(disk, other, stem', Home(root, other)) {
      LooksOnItsShelf(disk, root, other, shelf', stem', place);
    }
  }

  /** Grouped by scenario, reads of one scenario never look where another's writes land. */
  lemma ScenariosDoNotMeet(disk: Disk, kind: ArtifactKind, stem: string, when: When, container: Place, other: string)
    requires kind.Sound() && kind.grouping.ByScenario? && kind.folder.None? && when.Valid() && IsPlace(container)
    requires Plain(other) && stem != other && WriteDirectory(kind, stem, when, container).Ok?
    ensures WriteDirectory(kind, stem, when, container).value !in SearchSet(disk, kind, other, container)
  {
    ResolvePlain(container, other);
    ResolvePlain(container + [SUPERSEDED], other);
    assert Base(kind, container) == container;
    assert (container + [stem])[|container|] == stem && (container + [other])[|container|] == other;
  }

  // ----- Who lists a write -----

  /** A write that landed under its own stem. */
  ghost predicate LandedAs(disk: Disk, w: Write, stem: string) {
    && Sane(disk) && w.Valid() && Written(disk, w).0.Ok? && StemFor(w.kind, w.scenario) == Ok(stem)
    && '/' !in stem && w.when.Aware? && w.when.utc.year >= 1000
  }

  /** A scenario named as one of another scenario's versions is: its un-versioned file would be that version. */
  ghost predicate NamedAsItsVersion(w: Write, stem: string, other: string) {
    && w.when.Valid() && w.when.Aware? && w.kind.grouping.Flat? && w.kind.fixedStem.None?
    && VersionText(stem, StampText(w.when.utc), w.id, w.kind.suffix) == other + w.kind.suffix
  }

  /** A twin of the written kind does not list the write. */
  lemma TwinsDoNotMeet(disk: Disk, w: Write, stem: string, other: ArtifactKind, stem': string)
    requires LandedAs(disk, w, stem) && Twins(w.kind, other) && LaidOut(w.kind)
    requires OwnStem(other, stem') && Plain(stem') && |other.suffix| > 1 && !IsDigit(other.suffix[1])
    ensures !Listed(Written(disk, w).1, other, stem', w.container, Written(disk, w).0.value)
  {
    Landed(disk, w, stem);
    if stem == stem' {
      FamiliesAreDisjoint(w.kind, other, stem, w.when.utc, w.id);
    } else {
      ScenariosDoNotMeet(Written(disk, w).1, w.kind, stem, w.when, w.container, stem');
      assert SearchSet(Written(disk, w).1, other, stem', w.container)
        == SearchSet(Written(disk, w).1, w.kind, stem', w.container);
    }
  }

  /** One kind, two scenarios. */
  lemma OtherScenario(disk: Disk, w: Write, stem: string, other: string)
    requires LandedAs(disk, w, stem) && LaidOut(w.kind) && w.kind.fixedStem.None?
    requires OwnStem(w.kind, other) && Plain(other) && stem != other
    ensures Listed(Written(disk, w).1, w.kind, other, w.container, Written(disk, w).0.value) <==>
      NamedAsItsVersion(w, stem, other)
  {
    Landed(disk, w, stem);
    if w.kind.grouping.ByScenario? {
      ScenariosDoNotMeet(Written(disk, w).1, w.kind, stem, w.when, w.container, other);
    } else {
      OneStem(w.kind, stem, other, w.when.utc, w.id);
    }
  }

  /** Another shelf. */
  lemma OtherShelf(
      disk: Disk, w: Write, root: Place, stem: string, shelf: Shelf, other: ArtifactKind, shelf': Shelf, stem': string)
    requires LandedAs(disk, w, stem) && w.container == Home(root, w.kind) && KeptOn(w.kind, shelf)
    requires KeptOn(other, shelf') && shelf != shelf' && OwnStem(other, stem') && Plain(stem')
      && IsPlace(Home(root, other))
    ensures !Listed(Written(disk, w).1, other, stem', Home(root, other), Written(disk, w).0.value)
  {
    Landed(disk, w, stem);
    ShelvesDoNotMeet(Written(disk, w).1, root, w.kind, shelf, stem, w.when, other, shelf', stem');
  }

  /** Any kind, wherever it is kept. */
  lemma OtherKind(
      disk: Disk, w: Write, root: Place, stem: string, shelf: Shelf, other: ArtifactKind, shelf': Shelf, stem': string)
    requires LandedAs(disk, w, stem) && w.container == Home(root, w.kind) && KeptOn(w.kind, shelf)
      && KeptOn(other, shelf')
    requires shelf == shelf' ==> w.kind == other || Twins(w.kind, other)
    requires w.kind == other ==> shelf == shelf'
    requires OwnStem(other, stem') && Plain(stem') && IsPlace(Home(root, other))
    requires |other.suffix| > 1 && !IsDigit(other.suffix[1])
    ensures Listed(Written(disk, w).1, other, stem', Home(root, other), Written(disk, w).0.value)
      <==> w.kind == other && (stem == stem' || NamedAsItsVersion(w, stem, stem'))
  {
    if shelf != shelf' {
      OtherShelf(disk, w, root, stem, shelf, other, shelf', stem');
    } else if w.kind != other {
      TwinsDoNotMeet(disk, w, stem, other, stem');
    } else if stem == stem' {
      WrittenIsListed(disk, w, stem);
    } else {
      OtherScenario(disk, w, stem, stem');
    }
  }

  /** Two registered families are one, or twins on one shelf, or on two shelves. */
  lemma TwoFamilies(a: Family, b: Family)
    ensures KeptOn(KindOf(a), ShelfOf(a)) && KeptOn(KindOf(b), ShelfOf(b))
    ensures KindOf(a) == KindOf(b) <==> a == b
    ensures ShelfOf(a) == ShelfOf(b) ==> a == b || Twins(KindOf(a), KindOf(b))
    ensures |KindOf(b).suffix| > 1 && !IsDigit(KindOf(b).suffix[1])
  {
    EveryFamilyIsKept(a);
    EveryFamilyIsKept(b);
    SuffixesStartWithALetter(b);
    if ShelfOf(a) != ShelfOf(b) {
      KeptApart(KindOf(a), ShelfOf(a), KindOf(b), ShelfOf(b));
    } else if a != b {
      SameShelf(a, b);
    }
  }

  /** Whoever reads, a registered family lists a write exactly when it is its own, of its own scenario; but for
      a scenario of a flat family whose name is one of another scenario's versions. */
  lemma OnlyItsOwnFamilyLists(disk: Disk, w: Write, root: Place, a: Family, stem: string, b: Family, other: string)
    requires LandedAs(disk, w, stem) && w.kind == KindOf(a) && w.container == Home(root, w.kind)
    requires OwnStem(KindOf(b), other) && Plain(other) && IsPlace(Home(root, KindOf(b)))
    ensures Listed(Written(disk, w).1, KindOf(b), other, Home(root, KindOf(b)), Written(disk, w).0.value)
      <==> a == b && (stem == other || NamedAsItsVersion(w, stem, other))
  {
    TwoFamilies(a, b);
    OtherKind(disk, w, root, stem, ShelfOf(a), KindOf(b), ShelfOf(b), other);
  }

  lemma SameShelf(a: Family, b: Family)
    requires ShelfOf(a) == ShelfOf(b) && a != b
    ensures Twins(KindOf(a), KindOf(b))
  {
    OneShelfTwoLengths(a, b);
    SuffixLengthsAreTrue(a);
    SuffixLengthsAreTrue(b);
    KindsByShelf(a);
    KindsByShelf(b);
    OneShelfOneLayout(ShelfOf(a), KindOf(a), KindOf(b));
  }

  lemma KeptApart(a: ArtifactKind, shelf: Shelf, b: ArtifactKind, shelf': Shelf)
    requires KeptOn(a, shelf) && KeptOn(b, shelf') && shelf != shelf'
    ensures a != b
  {
    ShelvesApart(shelf, shelf');
  }
}
