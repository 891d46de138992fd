/** What the versioned store of evals/artifacts.py promises: every write is where reads look, no run of
    writes changes evidence, and the newest version is the latest in time. */
module ArtifactEvidence {
  import opened Wrappers
  import opened ArtifactNames
  import opened ArtifactStore
  import opened Texts

  // ----- Runs of writes -----

  function AfterAll(disk: Disk, writes: seq<Write>): Disk
    requires forall w <- writes :: w.Valid()
  {
    if writes == [] then disk else Written(AfterAll(disk, writes[..|writes| - 1]), writes[|writes| - 1]).1
  }

  /** Nothing written is ever changed or removed, and directories only come. */
  ghost predicate Grew(before: Disk, after: Disk) {
    && (forall p <- before.files :: p in after.files && after.files[p] == before.files[p])
    && before.dirs <= after.dirs
  }

  /** One write adds at most the one file it names. */
  lemma OneWrite(disk: Disk, w: Write)
    requires w.Valid()
    ensures Grew(disk, Written(disk, w).1)
    ensures var (path, after) := Written(disk, w);
      after.files == if path.Ok? then disk.files[path.value := w.content] else disk.files
    ensures Written(disk, w).0.Ok? ==> Written(disk, w).0.value !in disk.files
  {
  }

  lemma {:induction false} NoRunChangesEvidence(disk: Disk, writes: seq<Write>)
    requires forall w <- writes :: w.Valid()
    ensures Grew(disk, AfterAll(disk, writes))
  {
    if writes != [] {
      NoRunChangesEvidence(disk, writes[..|writes| - 1]);
      OneWrite(AfterAll(disk, writes[..|writes| - 1]), writes[|writes| - 1]);
    }
  }

  lemma {:induction false} SaneStays(disk: Disk, w: Write)
    requires Sane(disk) && w.Valid()
    ensures Sane(Written(disk, w).1)
  {
    var (path, after) := Written(disk, w);
    if VersionPath(w).Ok? && VersionPath(w).value != [] {
      var place := Parent(VersionPath(w).value);
      forall dir | dir in after.dirs ensures IsPlace(dir) && (dir != [] ==> Parent(dir) in after.dirs) {
        if dir in Upwards(place) && dir != [] {
          var k :| 0 <= k <= |place| && place[..k] == dir;
          assert Parent(dir) == place[..k - 1];
        }
      }
      assert place == place[..|place|];
    }
  }

  // ----- Families -----

  /** The stem a family is asked for: its own, if it has one. */
  predicate OwnStem(kind: ArtifactKind, stem: string) {
    kind.Sound() && stem != "" && (kind.fixedStem.Some? ==> stem == kind.fixedStem.value)
  }

  /** A name made for one stem is a member of another stem's family with the same suffix only as that
      stem's un-versioned name. */
  lemma OneStem(kind: ArtifactKind, stem: string, other: string, t: Utc, id: string)
    requires kind.suffix != "" && t.Valid() && t.year >= 1000 && IsInvocation(id) && stem != "" && stem != other
    ensures var name := VersionText(stem, StampText(t), id, kind.suffix);
      OrderKey(kind, other, name).Some? <==> name == LegacyName(kind, other)
  {
    var name := VersionText(stem, StampText(t), id, kind.suffix);
    NamesReadBack(stem, t, id, kind.suffix);
    assert name[|name| - |kind.suffix|..] == kind.suffix;
  }

  /** And families of one stem are disjoint unless they share their suffix: a world's recording and its
      answer key, an export and its labels, are never taken for one another. */
  lemma FamiliesAreDisjoint(kind: ArtifactKind, other: ArtifactKind, stem: string, t: Utc, id: string)
    requires kind.Sound() && t.Valid() && t.year >= 1000 && IsInvocation(id)
    requires OwnStem(other, stem) && |other.suffix| > 1 && !IsDigit(other.suffix[1]) && kind.suffix != other.suffix
    ensures OrderKey(other, stem, VersionText(stem, StampText(t), id, kind.suffix)).None?
  {
    var name := VersionText(stem, StampText(t), id, kind.suffix);
    OneSuffix(stem, t, id, kind.suffix, other.suffix);
    StampShape(t);
    assert stem + "." <= name && name[|stem| + 1] == StampText(t)[0];
    assert (stem + other.suffix)[|stem| + 1] == other.suffix[1];
  }

  /** Read with another suffix, a name does not give its own stem back. */
  lemma OneSuffix(stem: string, t: Utc, id: string, suffix: string, other: string)
    requires t.Valid() && t.year >= 1000 && IsInvocation(id) && stem != ""
    requires suffix != "" && suffix[0] == '.' && other != "" && other[0] == '.' && suffix != other
    ensures var parsed := ParseVersionName(VersionText(stem, StampText(t), id, suffix), other);
      parsed.Some? ==> parsed.value.stem != stem
  {
    var name := VersionText(stem, StampText(t), id, suffix);
    var parsed := ParseVersionName(name, other);
    StampShape(t);
    if parsed.Some? && parsed.value.stem == stem {
      ParseIsTheInverse(name, other, parsed.value);
      SameHeadSameTail(stem, StampText(t), id, suffix, parsed.value.stamp, parsed.value.invocationId, other);
    }
  }

  lemma SameHeadSameTail(
      stem: string, stamp: string, id: string, suffix: string, stamp': string, id': string, suffix': string)
    requires VersionText(stem, stamp, id, suffix) == VersionText(stem, stamp', id', suffix')
    requires IsStamp(stamp) && IsStamp(stamp') && IsInvocation(id) && IsInvocation(id')
    requires suffix != "" && suffix[0] == '.' && suffix' != "" && suffix'[0] == '.'
    ensures suffix == suffix'
  {
    var name := VersionText(stem, stamp, id, suffix);
    var n := |stem| + 18;
    assert name[n..] == id + suffix && name[n..] == id' + suffix';
    NoDots(stamp, id);
    NoDots(stamp', id');
    FirstDot(id, suffix, id', suffix');
    assert suffix == (id + suffix)[|id|..] && suffix' == (id' + suffix')[|id'|..];
  }

  lemma FirstDot(a: string, x: string, b: string, y: string)
    requires a + x == b + y && '.' !in a && '.' !in b
    requires x != "" && x[0] == '.' && y != "" && y[0] == '.'
    ensures |a| == |b|
  {
    var all := a + x;
    assert forall i :: 0 <= i < |a| ==> all[i] == a[i];
    assert forall i :: 0 <= i < |b| ==> all[i] == b[i];
    assert all[|a|] == '.' && all[|b|] == '.';
  }

  // ----- Every write is where reads look -----

  lemma NameIsNotLegacy(kind: ArtifactKind, stem: string, stamp: string, id: string)
    requires kind.Sound() && (kind.fixedStem.Some? ==> stem == kind.fixedStem.value)
    ensures VersionText(stem, stamp, id, kind.suffix) != LegacyName(kind, stem)
  {
    var name := VersionText(stem, stamp, id, kind.suffix);
    if kind.legacyName.Some? {
      assert stem + "." <= name;
    }
  }

  lemma NoSlashInStamp(t: Utc, id: string)
    requires t.Valid() && IsInvocation(id)
    ensures '/' !in StampText(t) && '/' !in id && '.' !in StampText(t)
  {
    assert forall c <- StampText(t) :: IsDigit(c) || c == 'T' || c == 'Z';
  }

  lemma NamePlain(stem: string, t: Utc, id: string, suffix: string)
    requires t.Valid() && IsInvocation(id) && stem != "" && '/' !in stem && '/' !in suffix
    ensures Plain(VersionText(stem, StampText(t), id, suffix))
  {
    NoSlashInStamp(t, id);
  }

  /** Where a successful write landed. */
  lemma Landed(disk: Disk, w: Write, stem: string)
    requires w.Valid() && Written(disk, w).0.Ok? && StemFor(w.kind, w.scenario) == Ok(stem)
    ensures w.when.Aware? && IsInvocation(w.id) && stem != ""
    ensures '/' !in stem ==>
      WriteDirectory(w.kind, stem, w.when, w.container).Ok?
      && Written(disk, w).0.value == WriteDirectory(w.kind, stem, w.when, w.container).value
        + [VersionText(stem, StampText(w.when.utc), w.id, w.kind.suffix)]
  {
    if '/' !in stem {
      NamePlain(stem, w.when.utc, w.id, w.kind.suffix);
      WriteDirectoryIsAPlace(w.kind, stem, w.when, w.container);
      ResolvePlain(WriteDirectory(w.kind, stem, w.when, w.container).value,
        VersionText(stem, StampText(w.when.utc), w.id, w.kind.suffix));
    }
  }

  /** The order key of a name just made. */
  lemma KeyOfAName(kind: ArtifactKind, stem: string, t: Utc, id: string)
    requires kind.Sound() && (kind.fixedStem.Some? ==> stem == kind.fixedStem.value)
    requires t.Valid() && IsInvocation(id) && stem != ""
    ensures var key := OrderKey(kind, stem, VersionText(stem, StampText(t), id, kind.suffix));
      if t.year >= 1000 then key == Some(VersionKey(1, StampText(t), id)) else key.None?
  {
    var name := VersionText(stem, StampText(t), id, kind.suffix);
    NameIsNotLegacy(kind, stem, StampText(t), id);
    NamesReadBack(stem, t, id, kind.suffix);
    StampShape(t);
    assert name[|name| - |kind.suffix|..] == kind.suffix;
    if t.year < 1000 {
      ShortYearDoesNotParse(stem, t, id, kind.suffix);
    }
  }

  lemma ShortYearDoesNotParse(stem: string, t: Utc, id: string, suffix: string)
    requires t.Valid() && t.year < 1000 && IsInvocation(id) && suffix != ""
    ensures ParseVersionName(VersionText(stem, StampText(t), id, suffix), suffix).None?
  {
    var name, head := VersionText(stem, StampText(t), id, suffix), stem + "." + StampText(t);
    assert name[..|name| - |suffix|] == head + "." + id;
    NoSlashInStamp(t, id);
    PartsAtTheLastDot(head, id);
    PartsAtTheLastDot(stem, StampText(t));
    StampShape(t);
  }

  lemma WhereReadsLook(disk: Disk, w: Write, stem: string)
    requires w.Valid() && Written(disk, w).0.Ok? && StemFor(w.kind, w.scenario) == Ok(stem) && '/' !in stem
    ensures Parent(Written(disk, w).0.value) in SearchSet(Written(disk, w).1, w.kind, stem, w.container)
  {
    Landed(disk, w, stem);
    var (path, after) := Written(disk, w);
    var target := Parent(path.value);
    assert target == WriteDirectory(w.kind, stem, w.when, w.container).value;
    assert target == target[..|target|];
    assert target in after.dirs;
    match w.kind.grouping
    case Flat =>
    case ByScenario =>
      ResolvePlain(Base(w.kind, w.container), stem);
    case ByMonth =>
      var base := Base(w.kind, w.container);
      assert target == base + [MonthText(w.when.utc)];
      assert Parent(target) == base && base == target[..|target| - 1];
  }

  /** A stem with a slash in it is never listed: no entry of a directory has such a name. */
  lemma SlashedNeverListed(disk: Disk, kind: ArtifactKind, stem: string, container: Place, p: Place)
    requires Sane(disk) && kind.Sound() && IsPlace(container) && '/' in stem && kind.legacyName.None?
    ensures !Listed(disk, kind, stem, container, p)
  {
    if p in disk.files {
      var name := p[|p| - 1];
      assert Plain(name);
      assert '/' in LegacyName(kind, stem);
      var parsed := ParseVersionName(name, kind.suffix);
      if parsed.Some? {
        ParseIsTheInverse(name, kind.suffix, parsed.value);
        assert forall c <- parsed.value.stem :: c in name;
      }
    }
  }

  /** A successful write is listed by the reads of its own family exactly when its scenario's name has no slash
      and its year four digits. Only families grouped by scenario refuse the slash. */
  lemma WrittenIsListed(disk: Disk, w: Write, stem: string)
    requires Sane(disk) && w.Valid() && Written(disk, w).0.Ok? && StemFor(w.kind, w.scenario) == Ok(stem)
    ensures Listed(Written(disk, w).1, w.kind, stem, w.container, Written(disk, w).0.value) <==>
      '/' !in stem && w.when.utc.year >= 1000
  {
    Landed(disk, w, stem);
    SaneStays(disk, w);
    if '/' in stem {
      SlashedNeverListed(Written(disk, w).1, w.kind, stem, w.container, Written(disk, w).0.value);
    } else {
      WhereReadsLook(disk, w, stem);
      KeyOfAName(w.kind, stem, w.when.utc, w.id);
    }
  }

  /** And it stays listed, with its content, through any run of later writes. */
  lemma ListedForGood(disk: Disk, w: Write, stem: string, later: seq<Write>)
    requires Sane(disk) && w.Valid() && Written(disk, w).0.Ok? && StemFor(w.kind, w.scenario) == Ok(stem)
    requires '/' !in stem && w.when.utc.year >= 1000 && forall next <- later :: next.Valid()
    ensures var (path, after) := Written(disk, w); var end := AfterAll(after, later);
      Listed(end, w.kind, stem, w.container, path.value) && end.files[path.value] == w.content
  {
    var (path, after) := Written(disk, w);
    WrittenIsListed(disk, w, stem);
    NoRunChangesEvidence(after, later);
    SearchSetGrows(after, AfterAll(after, later), w.kind, stem, w.container);
  }

  lemma SearchSetGrows(before: Disk, after: Disk, kind: ArtifactKind, stem: string, container: Place)
    requires Grew(before, after) && kind.Sound() && IsPlace(container)
    ensures SearchSet(before, kind, stem, container) <= SearchSet(after, kind, stem, container)
  {
  }

  // ----- The newest -----

  /** The file is this family's version of that time and invocation. */
  predicate IsVersion(kind: ArtifactKind, stem: string, file: Place, t: Utc, id: string) {
    && t.Valid() && t.year >= 1000 && IsInvocation(id) && file != []
    && file[|file| - 1] == VersionText(stem, StampText(t), id, kind.suffix)
  }

  /** Of two versions of one artifact, the one stamped later sorts later, whatever their ids and directories:
      no version that every other sorts before is earlier in time than one of them. */
  lemma LaterSortsLater(kind: ArtifactKind, stem: string, p: Place, q: Place, a: Utc, b: Utc, id: string, id': string)
    requires OwnStem(kind, stem)
    requires IsVersion(kind, stem, p, a, id) && IsVersion(kind, stem, q, b, id') && Seconds(a) < Seconds(b)
    ensures PathLeq(kind, stem, p, q) && !PathLeq(kind, stem, q, p)
  {
    KeyOfAName(kind, stem, a, id);
    KeyOfAName(kind, stem, b, id');
    TextOrderIsTimeOrder(a, b);
    StrictlyLater(kind, stem, p, q, VersionKey(1, StampText(a), id), VersionKey(1, StampText(b), id'));
  }

  lemma StrictlyLater(kind: ArtifactKind, stem: string, p: Place, q: Place, x: VersionKey, y: VersionKey)
    requires KeyOf(kind, stem, p) == Some(x) && KeyOf(kind, stem, q) == Some(y)
    requires x.rank == y.rank && Less(x.stamp, y.stamp)
    ensures PathLeq(kind, stem, p, q) && !PathLeq(kind, stem, q, p)
  {
    if Leq(y.stamp, x.stamp) {
      Antisymmetric(x.stamp, y.stamp);
    }
  }

  /** The file a family had before it was versioned: of the name it had, or of the stem and the suffix alone. */
  predicate IsUnversioned(kind: ArtifactKind, stem: string, file: Place) {
    && file != [] && EndsWith(file[|file| - 1], kind.suffix)
    && file[|file| - 1] == match kind.legacyName { case Some(name) => name case None => stem + kind.suffix }
  }

  /** It is listed where the family is looked for, and sorts before all its versions. */
  lemma UnversionedIsListed(disk: Disk, kind: ArtifactKind, stem: string, container: Place, p: Place, q: Place)
    requires kind.Sound() && IsPlace(container) && IsUnversioned(kind, stem, p)
    requires p in disk.files && Parent(p) in SearchSet(disk, kind, stem, container)
    ensures Listed(disk, kind, stem, container, p)
    ensures Listed(disk, kind, stem, container, q) && !IsUnversioned(kind, stem, q) ==>
      PathLeq(kind, stem, p, q) && !PathLeq(kind, stem, q, p)
  {
    if Listed(disk, kind, stem, container, q) && !IsUnversioned(kind, stem, q) {
      UnversionedIsOldest(kind, stem, p, q);
    }
  }

  /** A version set aside stays listed: moved from its scenario's directory into that scenario's superseded one. */
  lemma SupersededIsListed(disk: Disk, kind: ArtifactKind, stem: string, container: Place, name: string)
    requires kind.Sound() && IsPlace(container) && kind.grouping.ByScenario? && Plain(stem)
    requires Listed(disk, kind, stem, container, Base(kind, container) + [stem, name])
    requires Base(kind, container) + ["_superseded", stem, name] in disk.files
    ensures Listed(disk, kind, stem, container, Base(kind, container) + ["_superseded", stem, name])
  {
    var base := Base(kind, container);
    var here, aside := base + [stem, name], base + ["_superseded", stem, name];
    ResolvePlain(base + ["_superseded"], stem);
    assert aside[..|aside| - 1] == base + ["_superseded"] + [stem];
    assert here[|here| - 1] == name && aside[|aside| - 1] == name;
  }

  lemma UnversionedIsOldest(kind: ArtifactKind, stem: string, p: Place, q: Place)
    requires KeyOf(kind, stem, p).Some? && KeyOf(kind, stem, q).Some?
    requires p[|p| - 1] == LegacyName(kind, stem) && q[|q| - 1] != LegacyName(kind, stem)
    ensures PathLeq(kind, stem, p, q) && !PathLeq(kind, stem, q, p)
  {
    assert SortKey(kind, stem, p).rank == 0 && SortKey(kind, stem, q).rank == 1;
  }

  /** Where any version is listed, the newest file is a version, and none listed is later in time. */
  lemma NewestIsTheLatest(
      disk: Disk, kind: ArtifactKind, stem: string, container: Place, newest: Place, p: Place, t: Utc, id: string)
    requires OwnStem(kind, stem) && IsPlace(container) && IsNewest(disk, kind, stem, container, Some(newest))
    requires Listed(disk, kind, stem, container, p) && IsVersion(kind, stem, p, t, id)
    ensures newest[|newest| - 1] != LegacyName(kind, stem)
    ensures forall t', id' :: IsVersion(kind, stem, newest, t', id') ==> Seconds(t) <= Seconds(t')
  {
    NameIsNotLegacy(kind, stem, StampText(t), id);
    if newest[|newest| - 1] == LegacyName(kind, stem) {
      UnversionedIsOldest(kind, stem, newest, p);
    }
    forall t', id' | IsVersion(kind, stem, newest, t', id') ensures Seconds(t) <= Seconds(t') {
      if Seconds(t') < Seconds(t) {
        LaterSortsLater(kind, stem, newest, p, t', t, id', id);
      }
    }
  }
}
