/** What a reported drift says of the two payloads: outside lists, each kind is true of the values at its path, and
    the drifts at and below a path are those of comparing the two nodes there. */
module TrueDrifts {
  import opened Wrappers
  import opened Json
  import opened WorldComparison
  import opened MovementRules
  import opened WorldAgreement
  import opened WorldWidening
  import Texts

  /** The steps of a key path. */
  function Steps(path: Path): seq<Step> {
    seq(|path|, i requires 0 <= i < |path| => Key(path[i]))
  }

  lemma StepsOne(path: Path, key: string)
    ensures Steps(path + [key]) == Steps(path) + [Key(key)]
  {
  }

  lemma {:induction false} PathOfSteps(path: Path)
    ensures PolicyPath(Steps(path)) == path
  {
    if path != [] {
      var init, last := path[..|path| - 1], path[|path| - 1];
      assert path == init + [last];
      StepsOne(init, last);
      ChildPath(Steps(init), last);
      PathOfSteps(init);
    }
  }

  // ----- Where the drifts of an object come from -----

  lemma EitherPart<T>(a: seq<T>, b: seq<T>, x: T)
    ensures x in a + b <==> x in a || x in b
  {
  }

  /** A field of both, walked or read, has this drift. */
  ghost predicate InField(
      p: Policy, canned: map<string, Value>, live: map<string, Value>, key: string, at: seq<Step>,
      d: Drift)
  {
    key in canned && key in live && d in WalkedField(p, canned, live, key, at, false)
  }

  lemma {:induction false} OfSomeSharedField(
      p: Policy, canned: map<string, Value>, live: map<string, Value>, keys: seq<string>, at: seq<Step>,
      bound: nat, d: Drift)
    requires forall k <- keys :: k in canned && k in live && Height(canned[k]) < bound
    ensures d in WalkedFields(p, canned, live, keys, at, false, bound) <==>
      exists k <- keys :: InField(p, canned, live, k, at, d)
  {
    if keys != [] {
      var init, key := keys[..|keys| - 1], keys[|keys| - 1];
      assert keys == init + [key];
      assert forall k :: k in keys <==> k in init || k == key;
      OfSomeSharedField(p, canned, live, init, at, bound, d);
      var before, last := WalkedFields(p, canned, live, init, at, false, bound),
        WalkedField(p, canned, live, key, at, false);
      assert WalkedFields(p, canned, live, keys, at, false, bound) == before + last;
      EitherPart(before, last, d);
      assert d in last <==> InField(p, canned, live, key, at, d);
      if k :| k in init && InField(p, canned, live, k, at, d) {
        assert k in keys;
      }
    }
  }

  lemma OfOneSide(keys: seq<string>, kind: Kind, at: seq<Step>, d: Drift)
    ensures d in FieldDrifts(keys, kind, at) <==> exists k <- keys :: d == Drift(at + [Key(k)], kind)
  {
    var drifts := FieldDrifts(keys, kind, at);
    if k :| k in keys && d == Drift(at + [Key(k)], kind) {
      var i :| 0 <= i < |keys| && keys[i] == k;
      assert drifts[i] == d;
    }
  }

  /** A drift of two objects is a field one side lacks, or a drift of a field both have. */
  lemma {:induction false} OfTwoObjects(
      p: Policy, canned: Value, live: Value, at: seq<Step>, d: Drift)
    requires canned.Obj? && live.Obj?
    ensures d in WalkedObjects(p, canned, live, at, false) <==>
      || (exists k <- canned.fields.Keys - live.fields.Keys :: d == Drift(at + [Key(k)], CannedOnlyField))
      || (exists k <- live.fields.Keys - canned.fields.Keys :: d == Drift(at + [Key(k)], LiveOnlyField))
      || (exists k :: InField(p, canned.fields, live.fields, k, at, d))
  {
    var c, l := canned.fields, live.fields;
    var keys := Texts.Sorted(c.Keys * l.Keys);
    var gone := FieldDrifts(Texts.Sorted(c.Keys - l.Keys), CannedOnlyField, at);
    var added := FieldDrifts(Texts.Sorted(l.Keys - c.Keys), LiveOnlyField, at);
    var rest := WalkedFields(p, c, l, keys, at, false, Height(canned));
    OfOneSide(Texts.Sorted(c.Keys - l.Keys), CannedOnlyField, at, d);
    OfOneSide(Texts.Sorted(l.Keys - c.Keys), LiveOnlyField, at, d);
    OfSomeSharedField(p, c, l, keys, at, Height(canned), d);
    EitherPart(gone + added, rest, d);
    EitherPart(gone, added, d);
  }

  lemma InTheRows(p: Policy, canned: seq<Value>, live: seq<Value>, at: seq<Step>)
    ensures AllFrom(WalkedLists(p, canned, live, at), at + [Rows])
  {
    if canned != [] && live == [] {
    } else if HasObjects(canned) || HasObjects(live) {
      WalkStays(p, Merged(canned), Merged(live), at + [Rows], true);
      MintedAt(p, canned, live, at);
      BothFrom(MintedDrifts(p, canned, live, at), Walked(p, Merged(canned), Merged(live), at + [Rows], true),
        at + [Rows]);
    } else {
      LeavesAt(p, Arr(canned), Arr(live), at + [Rows]);
    }
  }

  // ----- What each kind says -----

  /** Two values outside lists that are not both objects nor both lists. */
  predicate ScalarSays(p: Policy, path: Path, canned: Value, live: Value, kind: Kind) {
    var minted := p.HasMove(path, MintedId) && IsMinted(canned);
    var counted := p.HasMove(path, WindowCount) || p.HasMove(path, HeldCount);
    var numbers := canned.Num? && live.Num?;
    match kind
    case TypeDiffers => !TypesAgree(canned, live) && !minted
    case MintedIdDiffers => minted && !IsMinted(live)
    case SignClass => counted && numbers && !SameSide(canned.n, live.n)
    case BelowFloor => p.HasMove(path, CountFloor) && numbers && live.n < canned.n
    case ValueDiffers =>
      && TypesAgree(canned, live) && Canon(canned) != Canon(live)
      && path !in p.volatile && !minted && !p.HasMove(path, FiringReading) && !p.HasMove(path, WindowReading)
      && !((counted || p.HasMove(path, CountFloor)) && numbers)
    case _ => false
  }

  predicate NodeSays(p: Policy, path: Path, canned: Value, live: Value, kind: Kind) {
    if Cut(p, path) then kind == TypeDiffers && !ShapesMeet(Leaves(canned), Leaves(live))
    else !Containers(canned, live) && ScalarSays(p, path, canned, live, kind)
  }

  /** A reading beside its threshold. */
  predicate ReadingSays(
      threshold: string, key: string, canned: map<string, Value>, live: map<string, Value>, kind: Kind)
    requires key in canned && key in live
  {
    var limits := threshold in canned && threshold in live && canned[threshold].Num? && live[threshold].Num?;
    match kind
    case TypeDiffers => !TypesAgree(canned[key], live[key])
    case ValueDiffers => TypesAgree(canned[key], live[key]) && !limits && Canon(canned[key]) != Canon(live[key])
    case ThresholdSideDiffers =>
      && TypesAgree(canned[key], live[key]) && limits
      && (canned[key].Num? && canned[threshold].n <= canned[key].n) !=
        (live[key].Num? && live[threshold].n <= live[key].n)
    case _ => false
  }

  predicate KeySays(
      p: Policy, path: Path, canned: map<string, Value>, live: map<string, Value>, key: string, kind: Kind)
  {
    match kind
    case CannedOnlyField => key in canned && key !in live
    case LiveOnlyField => key !in canned && key in live
    case _ =>
      && key in canned && key in live
      && if p.HasMove(path + [key], ThresholdSide) then
          ReadingSays(p.honest[path + [key]].threshold, key, canned, live, kind)
        else NodeSays(p, path + [key], canned[key], live[key], kind)
  }

  /** The walk arrives at two objects, and there the last key of the path has this drift. */
  predicate Says(p: Policy, prefix: Path, canned: Value, live: Value, path: Path, kind: Kind)
    requires path != []
  {
    var parent, key := path[..|path| - 1], path[|path| - 1];
    && Reached(p, prefix, canned, live, parent) && !Cut(p, prefix + parent)
    && At(canned, parent).value.Obj? && At(live, parent).value.Obj?
    && KeySays(p, prefix + parent, At(canned, parent).value.fields, At(live, parent).value.fields, key, kind)
  }

  lemma ScalarReports(p: Policy, canned: Value, live: Value, at: seq<Step>, kind: Kind)
    ensures Drift(at, kind) in ScalarDrifts(p, canned, live, at, false) <==>
      ScalarSays(p, PolicyPath(at), canned, live, kind)
  {
    SameIsCanonical(canned, live);
    var path := PolicyPath(at);
    if path !in p.volatile && path in p.honest {
      RuleReports(p, canned, live, at, kind);
    }
  }

  lemma RuleReports(p: Policy, canned: Value, live: Value, at: seq<Step>, kind: Kind)
    requires PolicyPath(at) !in p.volatile && PolicyPath(at) in p.honest
    ensures Drift(at, kind) in MovedScalarDrifts(p.honest[PolicyPath(at)].rule, canned, live, at) <==>
      ScalarSays(p, PolicyPath(at), canned, live, kind)
  {
    SameIsCanonical(canned, live);
    var rule := p.honest[PolicyPath(at)].rule;
    if rule.WindowCount? || rule.HeldCount? || rule.CountFloor? {
      NumbersReport(p, canned, live, at, kind);
    }
  }

  lemma NumbersReport(p: Policy, canned: Value, live: Value, at: seq<Step>, kind: Kind)
    requires PolicyPath(at) !in p.volatile && PolicyPath(at) in p.honest
    requires var rule := p.honest[PolicyPath(at)].rule; rule.WindowCount? || rule.HeldCount? || rule.CountFloor?
    ensures Drift(at, kind) in MovedScalarDrifts(p.honest[PolicyPath(at)].rule, canned, live, at) <==>
      ScalarSays(p, PolicyPath(at), canned, live, kind)
  {
    SameIsCanonical(canned, live);
    if canned.Num? && live.Num? {
      assert Sign(canned.n) == Sign(live.n) <==> SameSide(canned.n, live.n);
    }
  }

  lemma NodeReports(p: Policy, canned: Value, live: Value, at: seq<Step>, kind: Kind)
    requires at == [] <==> PolicyPath(at) == []
    ensures Drift(at, kind) in Walked(p, canned, live, at, false) <==> NodeSays(p, PolicyPath(at), canned, live, kind)
  {
    NodeSaysByCase(p, PolicyPath(at), canned, live, kind);
    if Cut(p, PolicyPath(at)) {
      CutReports(p, canned, live, at, kind);
    } else if Containers(canned, live) {
      ContainersReportBelow(p, canned, live, at, kind);
    } else {
      WalkedScalarReports(p, canned, live, at, kind);
    }
  }

  lemma NodeSaysByCase(p: Policy, path: Path, canned: Value, live: Value, kind: Kind)
    ensures Cut(p, path) ==>
      (NodeSays(p, path, canned, live, kind) <==> kind == TypeDiffers && !ShapesMeet(Leaves(canned), Leaves(live)))
    ensures !Cut(p, path) && Containers(canned, live) ==> !NodeSays(p, path, canned, live, kind)
    ensures !Cut(p, path) && !Containers(canned, live) ==>
      (NodeSays(p, path, canned, live, kind) <==> ScalarSays(p, path, canned, live, kind))
  {
  }

  lemma WalkedScalarReports(p: Policy, canned: Value, live: Value, at: seq<Step>, kind: Kind)
    requires !Containers(canned, live) && !(at != [] && PolicyPath(at) in p.shapeOnly)
    ensures Drift(at, kind) in Walked(p, canned, live, at, false) <==>
      ScalarSays(p, PolicyPath(at), canned, live, kind)
  {
    var drifts := ScalarDrifts(p, canned, live, at, false);
    assert Walked(p, canned, live, at, false) == drifts;
    assert Drift(at, kind) in drifts <==> ScalarSays(p, PolicyPath(at), canned, live, kind) by {
      ScalarReports(p, canned, live, at, kind);
    }
  }

  lemma CutReports(p: Policy, canned: Value, live: Value, at: seq<Step>, kind: Kind)
    requires at != [] && PolicyPath(at) in p.shapeOnly
    ensures Drift(at, kind) in Walked(p, canned, live, at, false) <==>
      kind == TypeDiffers && !ShapesMeet(Leaves(canned), Leaves(live))
  {
    ShapeDecides(canned, live, at);
    assert Walked(p, canned, live, at, false) == ShapeDrifts(canned, live, at);
  }

  lemma ContainersReportBelow(p: Policy, canned: Value, live: Value, at: seq<Step>, kind: Kind)
    requires Containers(canned, live) && !(at != [] && PolicyPath(at) in p.shapeOnly)
    ensures Drift(at, kind) !in Walked(p, canned, live, at, false)
  {
    WalkStays(p, canned, live, at, false);
    var drifts := Walked(p, canned, live, at, false);
    assert Drift(at, kind) in drifts ==> at in Paths(drifts);
  }

  lemma ReadingReports(
      threshold: string, key: string, canned: map<string, Value>, live: map<string, Value>,
      at: seq<Step>, kind: Kind)
    requires key in canned && key in live
    ensures Drift(at, kind) in ThresholdDrifts(threshold, key, canned, live, at) <==>
      ReadingSays(threshold, key, canned, live, kind)
  {
    SameIsCanonical(canned[key], live[key]);
  }

  // ----- Every drift outside lists, exactly -----

  lemma SaysBelow(
      p: Policy, prefix: Path, canned: Value, live: Value, key: string, path: Path, kind: Kind)
    requires path != []
    ensures Says(p, prefix, canned, live, [key] + path, kind) <==>
      && canned.Obj? && live.Obj? && key in canned.fields && key in live.fields
      && !Cut(p, prefix) && !p.HasMove(prefix + [key], ThresholdSide)
      && Says(p, prefix + [key], canned.fields[key], live.fields[key], path, kind)
  {
    var whole := [key] + path;
    var parent := path[..|path| - 1];
    assert whole[..|whole| - 1] == [key] + parent && whole[|whole| - 1] == path[|path| - 1];
    assert ([key] + parent)[1..] == parent;
    assert prefix + ([key] + parent) == prefix + [key] + parent;
  }

  lemma SaysHere(p: Policy, prefix: Path, canned: Value, live: Value, key: string, kind: Kind)
    ensures Says(p, prefix, canned, live, [key], kind) <==>
      !Cut(p, prefix) && canned.Obj? && live.Obj? && KeySays(p, prefix, canned.fields, live.fields, key, kind)
  {
    assert [key][..0] == [] && prefix + [] == prefix;
  }

  lemma StepsBelow(at: seq<Step>, key: string, path: Path)
    ensures at + Steps([key] + path) == at + [Key(key)] + Steps(path)
    ensures Steps([key]) == [Key(key)]
  {
  }

  /** The drift of one field, walked or read, at the field itself. */
  lemma FieldReports(
      p: Policy, canned: map<string, Value>, live: map<string, Value>, key: string, prefix: Path, kind: Kind)
    requires key in canned && key in live
    ensures Drift(Steps(prefix + [key]), kind) in WalkedField(p, canned, live, key, Steps(prefix), false) <==>
      KeySays(p, prefix, canned, live, key, kind)
  {
    var child := Steps(prefix + [key]);
    StepsOne(prefix, key);
    PathOfSteps(prefix + [key]);
    PathOfSteps(prefix);
    if p.HasMove(prefix + [key], ThresholdSide) {
      ReadingReports(p.honest[prefix + [key]].threshold, key, canned, live, child, kind);
    } else {
      NodeReports(p, canned[key], live[key], child, kind);
    }
  }

  /** No field but its own reports at or below a key. */
  lemma OtherFieldsAreSilent(
      p: Policy, canned: map<string, Value>, live: map<string, Value>, other: string, at: seq<Step>,
      key: string, d: Drift)
    requires InField(p, canned, live, other, at, d) && at + [Key(key)] <= d.path
    ensures other == key
  {
    FieldStays(p, canned, live, other, at, false);
    assert d.path in Paths(WalkedField(p, canned, live, other, at, false));
    assert d.path[|at|] == Key(other) && d.path[|at|] == Key(key);
  }

  lemma OneSideHere(s: set<string>, side: Kind, at: seq<Step>, key: string, kind: Kind)
    ensures (exists k <- s :: Drift(at + [Key(key)], kind) == Drift(at + [Key(k)], side)) <==> kind == side && key in s
  {
    forall k | at + [Key(key)] == at + [Key(k)] ensures k == key {
      assert (at + [Key(key)])[|at|] == Key(key) && (at + [Key(k)])[|at|] == Key(k);
    }
  }

  lemma OneFieldHere(
      p: Policy, canned: map<string, Value>, live: map<string, Value>, at: seq<Step>, key: string,
      d: Drift)
    requires at + [Key(key)] <= d.path
    ensures (exists k :: InField(p, canned, live, k, at, d)) <==> InField(p, canned, live, key, at, d)
  {
    forall k | InField(p, canned, live, k, at, d) ensures k == key {
      OtherFieldsAreSilent(p, canned, live, k, at, key, d);
    }
  }

  /** At the first key of a path: a field one side lacks, or what the field itself reports. */
  lemma {:induction false} ReportsHere(p: Policy, prefix: Path, canned: Value, live: Value, key: string, kind: Kind)
    requires canned.Obj? && live.Obj?
    ensures Drift(Steps(prefix) + [Key(key)], kind) in WalkedObjects(p, canned, live, Steps(prefix), false) <==>
      KeySays(p, prefix, canned.fields, live.fields, key, kind)
  {
    var at := Steps(prefix);
    var d := Drift(at + [Key(key)], kind);
    var c, l := canned.fields, live.fields;
    OfTwoObjects(p, canned, live, at, d);
    OneSideHere(c.Keys - l.Keys, CannedOnlyField, at, key, kind);
    OneSideHere(l.Keys - c.Keys, LiveOnlyField, at, key, kind);
    OneFieldHere(p, c, l, at, key, d);
    StepsOne(prefix, key);
    if key in c && key in l {
      FieldReports(p, c, l, key, prefix, kind);
    }
  }

  /** Further down: what the field of the first key reports. */
  lemma {:induction false} ReportsBelow(
      p: Policy, prefix: Path, canned: Value, live: Value, key: string, d: Drift)
    requires canned.Obj? && live.Obj? && Steps(prefix) + [Key(key)] < d.path
    ensures d in WalkedObjects(p, canned, live, Steps(prefix), false) <==>
      InField(p, canned.fields, live.fields, key, Steps(prefix), d)
  {
    var at := Steps(prefix);
    OfTwoObjects(p, canned, live, at, d);
    OneFieldHere(p, canned.fields, live.fields, at, key, d);
    assert |at + [Key(key)]| < |d.path|;
  }

  lemma ListsReportInTheirRows(
      p: Policy, canned: Value, live: Value, at: seq<Step>, path: Path, kind: Kind)
    requires canned.Arr? && live.Arr? && path != [] && !(at != [] && PolicyPath(at) in p.shapeOnly)
    ensures Drift(at + Steps(path), kind) !in Walked(p, canned, live, at, false)
  {
    InTheRows(p, canned.items, live.items, at);
    var drifts := Walked(p, canned, live, at, false);
    assert Drift(at + Steps(path), kind) in drifts ==> at + Steps(path) in Paths(drifts);
    assert (at + Steps(path))[|at|] == Key(path[0]);
    assert (at + [Rows])[|at|] == Rows;
  }

  lemma ScalarsReportAtThemselves(p: Policy, canned: Value, live: Value, at: seq<Step>)
    ensures AllAt(ScalarDrifts(p, canned, live, at, false), at)
  {
    if PolicyPath(at) in p.honest {
      MovedScalarAt(p.honest[PolicyPath(at)].rule, canned, live, at);
    }
  }

  lemma {:induction false} NoneBelowANode(p: Policy, prefix: Path, canned: Value, live: Value, path: Path, kind: Kind)
    requires path != [] && (Cut(p, prefix) || !(canned.Obj? && live.Obj?))
    ensures Drift(Steps(prefix) + Steps(path), kind) !in Walked(p, canned, live, Steps(prefix), false)
  {
    var at := Steps(prefix);
    PathOfSteps(prefix);
    assert |at + Steps(path)| > |at|;
    if Cut(p, prefix) {
    } else if canned.Arr? && live.Arr? {
      ListsReportInTheirRows(p, canned, live, at, path, kind);
    } else {
      ScalarsReportAtThemselves(p, canned, live, at);
    }
  }

  lemma {:induction false} Reports(p: Policy, prefix: Path, canned: Value, live: Value, path: Path, kind: Kind)
    requires path != []
    ensures Drift(Steps(prefix) + Steps(path), kind) in Walked(p, canned, live, Steps(prefix), false) <==>
      Says(p, prefix, canned, live, path, kind)
    decreases |path|, 1
  {
    if Cut(p, prefix) || !(canned.Obj? && live.Obj?) {
      NoneBelowANode(p, prefix, canned, live, path, kind);
      NothingSaid(p, prefix, canned, live, path, kind);
    } else {
      ObjectsReport(p, prefix, canned, live, path, kind);
      PathOfSteps(prefix);
    }
  }

  lemma {:induction false} ObjectsReport(p: Policy, prefix: Path, canned: Value, live: Value, path: Path, kind: Kind)
    requires path != [] && canned.Obj? && live.Obj? && !Cut(p, prefix)
    ensures Drift(Steps(prefix) + Steps(path), kind) in WalkedObjects(p, canned, live, Steps(prefix), false) <==>
      Says(p, prefix, canned, live, path, kind)
    decreases |path|, 0
  {
    var at, key, rest := Steps(prefix), path[0], path[1..];
    assert path == [key] + rest;
    StepsBelow(at, key, rest);
    if rest == [] {
      assert path == [key];
      SaysHere(p, prefix, canned, live, key, kind);
      ReportsHere(p, prefix, canned, live, key, kind);
    } else {
      ObjectsReportBelow(p, prefix, canned, live, key, rest, kind);
    }
  }

  lemma {:induction false} ObjectsReportBelow(
      p: Policy, prefix: Path, canned: Value, live: Value, key: string, rest: Path, kind: Kind)
    requires rest != [] && canned.Obj? && live.Obj? && !Cut(p, prefix)
    ensures Says(p, prefix, canned, live, [key] + rest, kind) <==>
      Drift(Steps(prefix) + [Key(key)] + Steps(rest), kind) in WalkedObjects(p, canned, live, Steps(prefix), false)
    decreases |rest|, 3
  {
    SaysBelow(p, prefix, canned, live, key, rest, kind);
    ReportsBelow(p, prefix, canned, live, key, Drift(Steps(prefix) + [Key(key)] + Steps(rest), kind));
    if key in canned.fields && key in live.fields {
      FieldReportsBelow(p, prefix, canned.fields, live.fields, key, rest, kind);
    }
  }

  lemma NothingSaid(p: Policy, prefix: Path, canned: Value, live: Value, path: Path, kind: Kind)
    requires path != [] && (Cut(p, prefix) || !(canned.Obj? && live.Obj?))
    ensures !Says(p, prefix, canned, live, path, kind)
  {
    assert prefix + [] == prefix;
  }

  lemma {:induction false} FieldReportsBelow(
      p: Policy, prefix: Path, canned: map<string, Value>, live: map<string, Value>, key: string, rest: Path,
      kind: Kind)
    requires rest != [] && key in canned && key in live
    ensures InField(p, canned, live, key, Steps(prefix), Drift(Steps(prefix) + [Key(key)] + Steps(rest), kind)) <==>
      !p.HasMove(prefix + [key], ThresholdSide) && Says(p, prefix + [key], canned[key], live[key], rest, kind)
    decreases |rest|, 2
  {
    StepsOne(prefix, key);
    PathOfSteps(prefix + [key]);
    Reports(p, prefix + [key], canned[key], live[key], rest, kind);
  }

  /** The drifts of a whole comparison outside lists, path by path and kind by kind. */
  lemma ReportedExactly(p: Policy, canned: map<string, Value>, live: map<string, Value>, path: Path, kind: Kind)
    requires path != []
    ensures Drift(Steps(path), kind) in Walked(p, Obj(canned), Obj(live), [], false) <==>
      Says(p, [], Obj(canned), Obj(live), path, kind)
  {
    Reports(p, [], Obj(canned), Obj(live), path, kind);
    assert Steps([]) + Steps(path) == Steps(path);
  }
}
