/** Forgiving more: widening the volatile paths of a comparison adds no drifting path exactly when
    the containers it lets the walk into agree, and coarser row identities cannot lose a row. */
module WorldWidening {
  import opened Wrappers
  import opened Json
  import Texts
  import opened WorldComparison
  import opened MovementRules
  import opened WorldAgreement

  function Widen(p: Policy, more: set<Path>): Policy {
    p.(volatile := p.volatile + more)
  }

  ghost function Paths(drifts: seq<Drift>): set<seq<Step>> {
    set d <- drifts :: d.path
  }

  lemma PathsAppend(a: seq<Drift>, b: seq<Drift>)
    ensures Paths(a + b) == Paths(a) + Paths(b)
  {
    assert forall d :: d in a + b <==> d in a || d in b;
  }

  // ----- Row identities -----

  /** Rows a finer identity cannot tell apart, a coarser one cannot either. */
  lemma {:induction false} CoarserIdentity(a: Value, b: Value, prefix: Path, fine: set<Path>, coarse: set<Path>)
    requires fine <= coarse && Identity(a, prefix, fine) == Identity(b, prefix, fine)
    ensures Identity(a, prefix, coarse) == Identity(b, prefix, coarse)
    decreases a
  {
    if a.Obj? {
      var x, y := Identity(a, prefix, fine).fields, Identity(b, prefix, fine).fields;
      forall k ensures k in Identity(a, prefix, coarse).fields <==> k in Identity(b, prefix, coarse).fields {
        assert k in x <==> k in y;
      }
      forall k | k in Identity(a, prefix, coarse).fields
        ensures Identity(a, prefix, coarse).fields[k] == Identity(b, prefix, coarse).fields[k]
      {
        assert x[k] == y[k];
        CoarserIdentity(a.fields[k], b.fields[k], prefix + [k], fine, coarse);
      }
    }
  }

  function RowIdentity(row: Value, prefix: Path, relaxed: set<Path>): multiset<Value> {
    if MintedRow(row) then multiset{Identity(row, prefix, relaxed)} else multiset{}
  }

  lemma {:induction false} IdentityInRows(rows: seq<Value>, prefix: Path, relaxed: set<Path>, id: Value)
    returns (j: nat)
    requires id in MintedIdentities(rows, prefix, relaxed)
    ensures j < |rows| && MintedRow(rows[j]) && Identity(rows[j], prefix, relaxed) == id
  {
    if id in RowIdentity(rows[0], prefix, relaxed) {
      j := 0;
    } else {
      var i := IdentityInRows(rows[1..], prefix, relaxed, id);
      j := i + 1;
    }
  }

  lemma {:induction false} WithoutRow(rows: seq<Value>, j: nat, prefix: Path, relaxed: set<Path>)
    requires j < |rows|
    ensures MintedIdentities(rows, prefix, relaxed)
      == MintedIdentities(rows[..j] + rows[j + 1..], prefix, relaxed) + RowIdentity(rows[j], prefix, relaxed)
  {
    if j == 0 {
      assert rows[..0] + rows[1..] == rows[1..];
    } else {
      var rest := rows[..j] + rows[j + 1..];
      assert rest[1..] == rows[1..][..j - 1] + rows[1..][j..] && rest[0] == rows[0];
      WithoutRow(rows[1..], j - 1, prefix, relaxed);
    }
  }

  lemma Cancel(x: Value, a: multiset<Value>, b: multiset<Value>)
    ensures multiset{x} + a <= b + multiset{x} <==> a <= b
  {
    if multiset{x} + a <= b + multiset{x} {
      forall v ensures a[v] <= b[v] {
        assert (multiset{x} + a)[v] <= (b + multiset{x})[v];
      }
    }
  }

  /** If every recorded identity has enough live rows, so has every coarser one. */
  lemma {:induction false} CoarserCoverage(
      canned: seq<Value>, live: seq<Value>, prefix: Path, fine: set<Path>, coarse: set<Path>)
    requires fine <= coarse
    requires MintedIdentities(canned, prefix, fine) <= MintedIdentities(live, prefix, fine)
    ensures MintedIdentities(canned, prefix, coarse) <= MintedIdentities(live, prefix, coarse)
  {
    if canned != [] {
      if MintedRow(canned[0]) {
        var id := Identity(canned[0], prefix, fine);
        assert id in MintedIdentities(canned, prefix, fine);
        var j := IdentityInRows(live, prefix, fine, id);
        var rest := live[..j] + live[j + 1..];
        WithoutRow(live, j, prefix, fine);
        Cancel(id, MintedIdentities(canned[1..], prefix, fine), MintedIdentities(rest, prefix, fine));
        CoarserCoverage(canned[1..], rest, prefix, fine, coarse);
        WithoutRow(live, j, prefix, coarse);
        CoarserIdentity(canned[0], live[j], prefix, fine, coarse);
      } else {
        CoarserCoverage(canned[1..], live, prefix, fine, coarse);
      }
    }
  }

  lemma WidenedMinted(p: Policy, more: set<Path>, canned: seq<Value>, live: seq<Value>, at: seq<Step>)
    ensures Paths(MintedDrifts(Widen(p, more), canned, live, at)) <= Paths(MintedDrifts(p, canned, live, at))
  {
    var q, prefix := Widen(p, more), PolicyPath(at);
    if q.HasMove(prefix + ["id"], MintedId) && MintedDrifts(q, canned, live, at) != [] {
      MissingMeansUncovered(MintedIdentities(canned, prefix, q.Relaxed()), MintedIdentities(live, prefix, q.Relaxed()));
      MissingMeansUncovered(MintedIdentities(canned, prefix, p.Relaxed()), MintedIdentities(live, prefix, p.Relaxed()));
      if MintedIdentities(canned, prefix, p.Relaxed()) <= MintedIdentities(live, prefix, p.Relaxed()) {
        CoarserCoverage(canned, live, prefix, p.Relaxed(), q.Relaxed());
      }
      assert MintedDrifts(p, canned, live, at)[0].path == at + [Rows];
    }
  }

  // ----- Leaves and scalars -----

  lemma WidenedMoves(p: Policy, more: set<Path>, path: Path)
    ensures path in Widen(p, more).Moves() ==> path in p.Moves() && p.Moves()[path] == Widen(p, more).Moves()[path]
    ensures path in p.Moves() && path !in Widen(p, more).volatile ==> path in Widen(p, more).Moves()
  {
  }

  lemma WidenedLeaves(p: Policy, more: set<Path>, canned: Value, live: Value, at: seq<Step>)
    ensures Paths(LeafDrifts(Widen(p, more), canned, live, at)) <= Paths(LeafDrifts(p, canned, live, at))
  {
    WidenedMoves(p, more, PolicyPath(at));
  }

  lemma WidenedScalar(p: Policy, more: set<Path>, canned: Value, live: Value, at: seq<Step>)
    ensures Paths(ScalarDrifts(Widen(p, more), canned, live, at, false))
      <= Paths(ScalarDrifts(p, canned, live, at, false))
  {
    WidenedMoves(p, more, PolicyPath(at));
    if PolicyPath(at) in Widen(p, more).volatile && DiffersInType(canned, live) {
      assert ScalarDrifts(p, canned, live, at, false)[0].path == at;
    }
  }

  // ----- Where the drifts of a walk lie -----

  ghost predicate AllFrom(drifts: seq<Drift>, at: seq<Step>) {
    forall x <- Paths(drifts) :: at <= x
  }

  ghost predicate AllBelow(drifts: seq<Drift>, at: seq<Step>) {
    forall x <- Paths(drifts) :: at < x
  }

  predicate Containers(canned: Value, live: Value) {
    (canned.Obj? && live.Obj?) || (canned.Arr? && live.Arr?)
  }

  ghost predicate AllAt(drifts: seq<Drift>, at: seq<Step>) {
    forall d <- drifts :: d.path == at
  }

  lemma {:induction false} ChecksAt(values: seq<Value>, domain: seq<Value>, at: seq<Step>)
    ensures AllAt(MemberDrifts(values, domain, at), at)
    ensures AllAt(SignDrifts(values, domain, at), at) && AllAt(FloorDrifts(values, domain, at), at)
  {
    if values != [] {
      ChecksAt(values[..|values| - 1], domain, at);
    }
  }

  lemma MovedLeavesAt(rule: Rule, values: seq<Value>, domain: seq<Value>, at: seq<Step>)
    ensures AllAt(MovedLeafDrifts(rule, values, domain, at), at)
  {
    if rule.MintedId? {
      ChecksAt(Pinned(values), domain, at);
    } else {
      ChecksAt(values, domain, at);
    }
  }

  lemma LeavesAt(p: Policy, canned: Value, live: Value, at: seq<Step>)
    ensures AllFrom(LeafDrifts(p, canned, live, at), at)
  {
    if PolicyPath(at) in p.honest {
      MovedLeavesAt(p.honest[PolicyPath(at)].rule, Leaves(canned), Leaves(live), at);
    }
    ChecksAt(Leaves(canned), Leaves(live), at);
    AtIsFrom(LeafDrifts(p, canned, live, at), at);
  }

  /** A path is reported by the fields exactly when one of them reports it. */
  lemma {:induction false} OfSomeField(
      p: Policy, canned: map<string, Value>, live: map<string, Value>, keys: seq<string>, at: seq<Step>, inList: bool,
      bound: nat,
      x: seq<Step>)
    requires forall k <- keys :: k in canned && k in live && Height(canned[k]) < bound
    ensures x in Paths(WalkedFields(p, canned, live, keys, at, inList, bound)) <==>
      exists k <- keys :: x in Paths(WalkedField(p, canned, live, k, at, inList))
  {
    if keys != [] {
      var init, key := keys[..|keys| - 1], keys[|keys| - 1];
      assert keys == init + [key];
      assert forall k :: k in keys <==> k in init || k == key;
      OfSomeField(p, canned, live, init, at, inList, bound, x);
      assert WalkedFields(p, canned, live, keys, at, inList, bound)
        == WalkedFields(p, canned, live, init, at, inList, bound) + WalkedField(p, canned, live, key, at, inList);
      PathsAppend(WalkedFields(p, canned, live, init, at, inList, bound),
        WalkedField(p, canned, live, key, at, inList));
    }
  }

  predicate OneSided(canned: map<string, Value>, live: map<string, Value>, key: string) {
    key in canned.Keys - live.Keys || key in live.Keys - canned.Keys
  }

  predicate Shared(canned: map<string, Value>, live: map<string, Value>, key: string) {
    key in canned && key in live
  }

  /** A path is reported between two objects exactly when it is a key of one of them only, or a
      shared field reports it. */
  lemma {:induction false} OfTheObjects(
      p: Policy, canned: Value, live: Value, at: seq<Step>, inList: bool, x: seq<Step>)
    requires canned.Obj? && live.Obj?
    ensures x in Paths(WalkedObjects(p, canned, live, at, inList)) <==>
      || (exists k :: OneSided(canned.fields, live.fields, k) && x == at + [Key(k)])
      || (exists k ::
        Shared(canned.fields, live.fields, k) && x in Paths(WalkedField(p, canned.fields, live.fields, k, at, inList)))
  {
    var c, l := canned.fields, live.fields;
    var keys := Texts.Sorted(c.Keys * l.Keys);
    var gone := FieldDrifts(Texts.Sorted(c.Keys - l.Keys), CannedOnlyField, at);
    var added := FieldDrifts(Texts.Sorted(l.Keys - c.Keys), LiveOnlyField, at);
    PathsAppend(gone, added);
    PathsAppend(gone + added, WalkedFields(p, c, l, keys, at, inList, Height(canned)));
    ListedPaths(c.Keys - l.Keys, CannedOnlyField, at, x);
    ListedPaths(l.Keys - c.Keys, LiveOnlyField, at, x);
    OfSomeField(p, c, l, keys, at, inList, Height(canned), x);
  }

  lemma ListedPaths(s: set<string>, kind: Kind, at: seq<Step>, x: seq<Step>)
    ensures x in Paths(FieldDrifts(Texts.Sorted(s), kind, at)) <==> exists k <- s :: x == at + [Key(k)]
  {
    var keys := Texts.Sorted(s);
    var drifts := FieldDrifts(keys, kind, at);
    if k :| k in s && x == at + [Key(k)] {
      var i :| 0 <= i < |keys| && keys[i] == k;
      assert drifts[i] in drifts && drifts[i].path == x;
    }
  }

  /** Every drift of a walk lies at its node or below it; between two containers, strictly below. */
  lemma {:induction false} WalkStays(p: Policy, canned: Value, live: Value, at: seq<Step>, inList: bool)
    ensures AllFrom(Walked(p, canned, live, at, inList), at)
    ensures Containers(canned, live) && !(at != [] && PolicyPath(at) in p.shapeOnly) ==>
      AllBelow(Walked(p, canned, live, at, inList), at)
    decreases Height(canned), if canned.Arr? then 2 else 1
  {
    if at != [] && PolicyPath(at) in p.shapeOnly {
    } else if canned.Obj? && live.Obj? {
      ObjectsStay(p, canned, live, at, inList);
      BelowIsFrom(WalkedObjects(p, canned, live, at, inList), at);
    } else if canned.Arr? && live.Arr? {
      ListsStay(p, canned.items, live.items, at);
      BelowIsFrom(WalkedLists(p, canned.items, live.items, at), at);
    } else {
      ScalarsAt(p, canned, live, at, inList);
    }
  }

  lemma MovedScalarAt(rule: Rule, canned: Value, live: Value, at: seq<Step>)
    ensures AllAt(MovedScalarDrifts(rule, canned, live, at), at)
  {
  }

  lemma ScalarsAt(p: Policy, canned: Value, live: Value, at: seq<Step>, inList: bool)
    ensures AllFrom(ScalarDrifts(p, canned, live, at, inList), at)
  {
    var path := PolicyPath(at);
    if path in p.volatile {
    } else if path in p.honest && !inList {
      MovedScalarAt(p.honest[path].rule, canned, live, at);
      AtIsFrom(MovedScalarDrifts(p.honest[path].rule, canned, live, at), at);
    } else if inList {
      LeavesAt(p, canned, live, at);
    }
  }

  lemma AtIsFrom(drifts: seq<Drift>, at: seq<Step>)
    requires AllAt(drifts, at)
    ensures AllFrom(drifts, at)
  {
  }

  lemma BelowIsFrom(drifts: seq<Drift>, at: seq<Step>)
    requires AllBelow(drifts, at)
    ensures AllFrom(drifts, at)
  {
  }

  lemma {:induction false} ObjectsStay(p: Policy, canned: Value, live: Value, at: seq<Step>, inList: bool)
    requires canned.Obj? && live.Obj?
    ensures AllBelow(WalkedObjects(p, canned, live, at, inList), at)
    decreases Height(canned), 0
  {
    forall x | x in Paths(WalkedObjects(p, canned, live, at, inList)) ensures at < x {
      OfTheObjects(p, canned, live, at, inList, x);
      if k :| Shared(canned.fields, live.fields, k) && x in Paths(WalkedField(
        p, canned.fields, live.fields, k, at, inList)) {
        FieldStays(p, canned.fields, live.fields, k, at, inList);
        assert at < at + [Key(k)];
      }
    }
  }

  lemma {:induction false} FieldStays(
      p: Policy, canned: map<string, Value>, live: map<string, Value>, key: string, at: seq<Step>, inList: bool)
    requires key in canned && key in live
    ensures AllFrom(WalkedField(p, canned, live, key, at, inList), at + [Key(key)])
    decreases Height(canned[key]), 3
  {
    WalkStays(p, canned[key], live[key], at + [Key(key)], inList);
  }

  lemma {:induction false} ListsStay(p: Policy, canned: seq<Value>, live: seq<Value>, at: seq<Step>)
    ensures AllBelow(WalkedLists(p, canned, live, at), at)
    decreases Height(Arr(canned)), 2, 0
  {
    if canned != [] && live == [] {
      FromTheRows(WalkedLists(p, canned, live, at), at);
    } else if HasObjects(canned) || HasObjects(live) {
      MergedIsNoTaller(canned);
      WalkStays(p, Merged(canned), Merged(live), at + [Rows], true);
      RowsStay(p, canned, live, at);
    } else {
      LeafListStays(p, canned, live, at);
    }
  }

  lemma LeafListStays(p: Policy, canned: seq<Value>, live: seq<Value>, at: seq<Step>)
    ensures AllBelow(LeafDrifts(p, Arr(canned), Arr(live), at + [Rows]), at)
  {
    LeavesAt(p, Arr(canned), Arr(live), at + [Rows]);
    FromTheRows(LeafDrifts(p, Arr(canned), Arr(live), at + [Rows]), at);
  }

  lemma RowsStay(p: Policy, canned: seq<Value>, live: seq<Value>, at: seq<Step>)
    requires AllFrom(Walked(p, Merged(canned), Merged(live), at + [Rows], true), at + [Rows])
    ensures AllBelow(MintedDrifts(p, canned, live, at) + Walked(p, Merged(canned), Merged(live), at + [Rows], true), at)
  {
    MintedAt(p, canned, live, at);
    BothFrom(MintedDrifts(p, canned, live, at), Walked(p, Merged(canned), Merged(live), at + [Rows], true),
      at + [Rows]);
    FromTheRows(MintedDrifts(p, canned, live, at) + Walked(p, Merged(canned), Merged(live), at + [Rows], true), at);
  }

  lemma MintedAt(p: Policy, canned: seq<Value>, live: seq<Value>, at: seq<Step>)
    ensures AllAt(MintedDrifts(p, canned, live, at), at + [Rows])
  {
  }

  lemma BothFrom(a: seq<Drift>, b: seq<Drift>, at: seq<Step>)
    requires AllAt(a, at) && AllFrom(b, at)
    ensures AllFrom(a + b, at)
  {
    PathsAppend(a, b);
    AtIsFrom(a, at);
  }

  lemma FromTheRows(drifts: seq<Drift>, at: seq<Step>)
    requires AllFrom(drifts, at + [Rows])
    ensures AllBelow(drifts, at)
  {
    forall x | x in Paths(drifts) ensures at < x {
      assert at < at + [Rows] <= x;
    }
  }

  // ----- Inside a list -----

  ghost predicate NoNewPath(p: Policy, more: set<Path>, canned: Value, live: Value, at: seq<Step>, inList: bool) {
    Paths(Walked(Widen(p, more), canned, live, at, inList)) <= Paths(Walked(p, canned, live, at, inList))
  }

  ghost predicate NoNewPathIn(
      p: Policy, more: set<Path>, canned: map<string, Value>, live: map<string, Value>, key: string, at: seq<Step>,
      inList: bool)
    requires key in canned && key in live
  {
    Paths(WalkedField(Widen(p, more), canned, live, key, at, inList))
      <= Paths(WalkedField(p, canned, live, key, at, inList))
  }

  lemma FromEveryField(p: Policy, more: set<Path>, canned: Value, live: Value, at: seq<Step>, inList: bool)
    requires canned.Obj? && live.Obj? && !(at != [] && PolicyPath(at) in p.shapeOnly)
    requires forall k ::
      Shared(canned.fields, live.fields, k) ==> NoNewPathIn(p, more, canned.fields, live.fields, k, at, inList)
    ensures NoNewPath(p, more, canned, live, at, inList)
  {
    var q := Widen(p, more);
    forall x | x in Paths(WalkedObjects(q, canned, live, at, inList))
      ensures x in Paths(WalkedObjects(p, canned, live, at, inList))
    {
      OfTheObjects(q, canned, live, at, inList, x);
      OfTheObjects(p, canned, live, at, inList, x);
      if k :| Shared(canned.fields, live.fields, k) && x in Paths(WalkedField(
        q, canned.fields, live.fields, k, at, inList)) {
        assert NoNewPathIn(p, more, canned.fields, live.fields, k, at, inList);
      }
    }
  }

  /** What the walk meets inside a list: a merged row, or a column of one. */
  predicate ListNodes(canned: Value, live: Value) {
    || (canned.Arr? && live.Arr?)
    || (canned.Obj? && live.Obj?
        && (forall k <- canned.fields :: canned.fields[k].Arr?) && (forall k <- live.fields :: live.fields[k].Arr?))
  }

  /** Below a list no field is read against a threshold, and widening never adds a path. */
  lemma {:induction false} WidenedInList(p: Policy, more: set<Path>, canned: Value, live: Value, at: seq<Step>)
    requires ListNodes(canned, live)
    ensures NoNewPath(p, more, canned, live, at, true)
    decreases Height(canned), if canned.Arr? then 2 else 1
  {
    if at != [] && PolicyPath(at) in p.shapeOnly {
    } else if canned.Obj? {
      forall k | Shared(canned.fields, live.fields, k)
        ensures NoNewPathIn(p, more, canned.fields, live.fields, k, at, true)
      {
        WidenedInList(p, more, canned.fields[k], live.fields[k], at + [Key(k)]);
      }
      FromEveryField(p, more, canned, live, at, true);
    } else {
      WidenedLists(p, more, canned.items, live.items, at);
    }
  }

  lemma {:induction false} WidenedLists(p: Policy, more: set<Path>, canned: seq<Value>, live: seq<Value>, at: seq<Step>)
    ensures Paths(WalkedLists(Widen(p, more), canned, live, at)) <= Paths(WalkedLists(p, canned, live, at))
    decreases Height(Arr(canned)), 2, 0
  {
    var q, c, l, rows := Widen(p, more), Merged(canned), Merged(live), at + [Rows];
    if canned != [] && live == [] {
    } else if HasObjects(canned) || HasObjects(live) {
      MergedIsNoTaller(canned);
      WidenedMinted(p, more, canned, live, at);
      WidenedInList(p, more, c, l, rows);
      PathsAppend(MintedDrifts(q, canned, live, at), Walked(q, c, l, rows, true));
      PathsAppend(MintedDrifts(p, canned, live, at), Walked(p, c, l, rows, true));
    } else {
      WidenedLeaves(p, more, Arr(canned), Arr(live), rows);
    }
  }

  // ----- Outside lists -----

  /** A path the comparison reads against a threshold, instead of walking it. */
  predicate ReadAt(p: Policy, prefix: Path, canned: Value, live: Value, path: Path): (r: bool)
    ensures r ==> path != [] && At(canned, path).Some? && At(live, path).Some?
    decreases |path|
  {
    && path != [] && canned.Obj? && live.Obj? && path[0] in canned.fields && path[0] in live.fields && !Cut(p, prefix)
    && (if |path| == 1 then p.HasMove(prefix + path, ThresholdSide)
        else
          (!p.HasMove(prefix + [path[0]], ThresholdSide)
           && ReadAt(p, prefix + [path[0]], canned.fields[path[0]], live.fields[path[0]], path[1..])))
  }

  /** Two containers whose field turns volatile are walked from then on: they must agree under the
      widened policy, unless the field is cut to its shape and its reading was reported before. */
  ghost predicate ContainersAgree(
      p: Policy, more: set<Path>, path: Path, canned: map<string, Value>, live: map<string, Value>, key: string)
    requires key in canned && key in live && p.HasMove(path, ThresholdSide)
  {
    path in more && Containers(canned[key], live[key]) ==>
      || AgreeUnder(Widen(p, more), path, canned[key], live[key])
      || (Cut(p, path) && !ReadingKept(p.honest[path].threshold, key, canned, live))
  }

  ghost predicate WidensAt(p: Policy, more: set<Path>, prefix: Path, canned: Value, live: Value, path: Path)
    decreases |path|
  {
    ReadAt(p, prefix, canned, live, path) ==>
      if |path| == 1 then ContainersAgree(p, more, prefix + path, canned.fields, live.fields, path[0])
      else WidensAt(p, more, prefix + [path[0]], canned.fields[path[0]], live.fields[path[0]], path[1..])
  }

  /** At every path read against a threshold. */
  ghost predicate Widens(p: Policy, more: set<Path>, prefix: Path, canned: Value, live: Value) {
    forall path: Path :: WidensAt(p, more, prefix, canned, live, path)
  }

  ghost predicate FieldWidens(
      p: Policy, more: set<Path>, prefix: Path, canned: map<string, Value>, live: map<string, Value>, key: string)
    requires key in canned && key in live
  {
    if p.HasMove(prefix + [key], ThresholdSide) then ContainersAgree(p, more, prefix + [key], canned, live, key)
    else Widens(p, more, prefix + [key], canned[key], live[key])
  }

  lemma WidensByKey(p: Policy, more: set<Path>, prefix: Path, canned: map<string, Value>, live: map<string, Value>)
    requires !Cut(p, prefix)
    ensures Widens(p, more, prefix, Obj(canned), Obj(live)) <==>
      forall k :: Shared(canned, live, k) ==> FieldWidens(p, more, prefix, canned, live, k)
  {
    if Widens(p, more, prefix, Obj(canned), Obj(live)) {
      forall k | Shared(canned, live, k) ensures FieldWidens(p, more, prefix, canned, live, k) {
        WidensBelow(p, more, prefix, canned, live, k);
      }
    }
    if forall k :: Shared(canned, live, k) ==> FieldWidens(p, more, prefix, canned, live, k) {
      forall path: Path ensures WidensAt(p, more, prefix, Obj(canned), Obj(live), path) {
        if ReadAt(p, prefix, Obj(canned), Obj(live), path) {
          var key, rest := path[0], path[1..];
          assert path == [key] + rest;
          assert Shared(canned, live, key) && FieldWidens(p, more, prefix, canned, live, key);
          if |path| == 1 {
            assert path == [key];
          } else {
            assert WidensAt(p, more, prefix + [key], canned[key], live[key], rest);
          }
        }
      }
    }
  }

  lemma WidensBelow(
      p: Policy, more: set<Path>, prefix: Path, canned: map<string, Value>, live: map<string, Value>, key: string)
    requires !Cut(p, prefix) && key in canned && key in live
    requires Widens(p, more, prefix, Obj(canned), Obj(live))
    ensures FieldWidens(p, more, prefix, canned, live, key)
  {
    if p.HasMove(prefix + [key], ThresholdSide) {
      assert WidensAt(p, more, prefix, Obj(canned), Obj(live), [key]);
    } else {
      forall path: Path ensures WidensAt(p, more, prefix + [key], canned[key], live[key], path) {
        JoinPaths(prefix, key, path);
        assert WidensAt(p, more, prefix, Obj(canned), Obj(live), [key] + path);
      }
    }
  }

  lemma StepsApart(at: seq<Step>, a: string, b: string, x: seq<Step>)
    requires at + [Key(a)] <= x && at + [Key(b)] <= x
    ensures a == b
  {
    assert (at + [Key(a)])[|at|] == x[|at|] == (at + [Key(b)])[|at|];
  }

  /** Different fields never report one path, so the whole adds no path only if no field does. */
  lemma EveryFieldFrom(p: Policy, more: set<Path>, canned: Value, live: Value, at: seq<Step>, inList: bool, key: string)
    requires canned.Obj? && live.Obj? && !(at != [] && PolicyPath(at) in p.shapeOnly)
    requires key in canned.fields && key in live.fields && NoNewPath(p, more, canned, live, at, inList)
    ensures NoNewPathIn(p, more, canned.fields, live.fields, key, at, inList)
  {
    var q, c, l := Widen(p, more), canned.fields, live.fields;
    FieldStays(q, c, l, key, at, inList);
    forall x | x in Paths(WalkedField(q, c, l, key, at, inList))
      ensures x in Paths(WalkedField(p, c, l, key, at, inList)) {
      OfTheObjects(q, canned, live, at, inList, x);
      OfTheObjects(p, canned, live, at, inList, x);
      assert Shared(c, l, key);
      assert x in Paths(Walked(p, canned, live, at, inList));
      if k :| OneSided(c, l, k) && x == at + [Key(k)] {
        StepsApart(at, key, k, x);
      } else {
        var k :| Shared(c, l, k) && x in Paths(WalkedField(p, c, l, k, at, inList));
        FieldStays(p, c, l, k, at, inList);
        StepsApart(at, key, k, x);
      }
    }
  }

  lemma NoPaths(drifts: seq<Drift>)
    ensures Paths(drifts) == {} <==> drifts == []
  {
    assert drifts != [] ==> drifts[0].path in Paths(drifts);
  }

  lemma ReadAtItsField(
      threshold: string, canned: map<string, Value>, live: map<string, Value>, key: string, child: seq<Step>)
    requires key in canned && key in live
    ensures Paths(ThresholdDrifts(threshold, key, canned, live, child))
      == if ReadingKept(threshold, key, canned, live) then {} else {child}
  {
    var drifts := ThresholdDrifts(threshold, key, canned, live, child);
    ReadingDecides(threshold, key, canned, live, child);
    if drifts != [] {
      assert drifts == [drifts[0]] && drifts[0].path == child;
    }
  }

  lemma ShapeAtItsNode(canned: Value, live: Value, at: seq<Step>)
    ensures Paths(ShapeDrifts(canned, live, at)) <= {at}
  {
  }

  /** A threshold field turned volatile: two containers are walked, and every drift they then have
      is a new path; anything else drifts only in type, which the threshold reading reports too. */
  lemma {:induction false} ReadFieldWidens(
      p: Policy, more: set<Path>, canned: map<string, Value>, live: map<string, Value>, key: string, at: seq<Step>)
    requires key in canned && key in live && p.HasMove(PolicyPath(at + [Key(key)]), ThresholdSide)
    ensures NoNewPathIn(p, more, canned, live, key, at, false)
      <==> ContainersAgree(p, more, PolicyPath(at + [Key(key)]), canned, live, key)
  {
    var q, child, c, l := Widen(p, more), at + [Key(key)], canned[key], live[key];
    var path := PolicyPath(child);
    var walked := Walked(q, c, l, child, false);
    ChildPath(at, key);
    ReadAtItsField(p.honest[path].threshold, canned, live, key, child);
    if path in more {
      NoPaths(walked);
      WalkDecides(q, c, l, child);
      WalkStays(q, c, l, child, false);
      if Cut(p, path) {
        ShapeAtItsNode(c, l, child);
      }
      if !Containers(c, l) {
        WidenedThreshold(p, q, canned, live, key, child);
      }
    }
  }

  /** What a volatile field that is not two containers can report, its threshold reading reports too. */
  lemma {:induction false} WidenedThreshold(
      p: Policy, q: Policy, canned: map<string, Value>, live: map<string, Value>, key: string, child: seq<Step>)
    requires key in canned && key in live && child != [] && PolicyPath(child) in q.volatile
    requires !Containers(canned[key], live[key]) && p.HasMove(PolicyPath(child), ThresholdSide)
    ensures Paths(Walked(q, canned[key], live[key], child, false))
      <= Paths(ThresholdDrifts(p.Moves()[PolicyPath(child)].threshold, key, canned, live, child))
  {
    var c, l := canned[key], live[key];
    var reported := ThresholdDrifts(p.Moves()[PolicyPath(child)].threshold, key, canned, live, child);
    if Walked(q, c, l, child, false) != [] {
      if PolicyPath(child) in q.shapeOnly {
        ShapeOfMixed(c, l, child);
      }
      assert DiffersInType(c, l);
      assert reported[0].path == child;
    }
  }

  /** Cut at a node that is not a container on both sides, the shape check still needs two
      non-null sides of different type. */
  lemma {:induction false} ShapeOfMixed(canned: Value, live: Value, at: seq<Step>)
    requires !Containers(canned, live) && ShapeDrifts(canned, live, at) != []
    ensures DiffersInType(canned, live)
  {
    OneLeaf(canned);
    OneLeaf(live);
  }

  lemma OneLeaf(v: Value)
    ensures !v.Arr? ==> Leaves(v) == if v.Null? then [] else [v]
  {
    if !v.Arr? {
      assert NonNull([v][1..]) == [];
    }
  }

  lemma {:induction false} FieldWidensExactly(
      p: Policy, more: set<Path>, canned: map<string, Value>, live: map<string, Value>, key: string, at: seq<Step>)
    requires key in canned && key in live
    ensures NoNewPathIn(p, more, canned, live, key, at, false) <==>
      FieldWidens(p, more, PolicyPath(at), canned, live, key)
    decreases Height(canned[key]), 3
  {
    var child := at + [Key(key)];
    ChildPath(at, key);
    WidenedMoves(p, more, PolicyPath(child));
    if p.HasMove(PolicyPath(child), ThresholdSide) {
      ReadFieldWidens(p, more, canned, live, key, at);
    } else {
      WidensExactly(p, more, canned[key], live[key], child);
    }
  }

  /** Widening the volatile set adds no drifting path exactly when, at every path read against a
      threshold, two containers it turns volatile agree under the widened policy. */
  lemma {:induction false} WidensExactly(p: Policy, more: set<Path>, canned: Value, live: Value, at: seq<Step>)
    requires at != [] ==> PolicyPath(at) != []
    ensures NoNewPath(p, more, canned, live, at, false) <==> Widens(p, more, PolicyPath(at), canned, live)
    decreases Height(canned), 2
  {
    var path := PolicyPath(at);
    if canned.Obj? && live.Obj? && !Cut(p, path) {
      ObjectsWiden(p, more, canned, live, at);
    } else {
      assert forall path: Path :: !ReadAt(p, PolicyPath(at), canned, live, path);
      if Cut(p, path) {
      } else if canned.Arr? && live.Arr? {
        WidenedLists(p, more, canned.items, live.items, at);
      } else {
        WidenedScalar(p, more, canned, live, at);
      }
    }
  }

  lemma {:induction false} ObjectsWiden(p: Policy, more: set<Path>, canned: Value, live: Value, at: seq<Step>)
    requires canned.Obj? && live.Obj? && !Cut(p, PolicyPath(at)) && (at != [] ==> PolicyPath(at) != [])
    ensures NoNewPath(p, more, canned, live, at, false) <==> Widens(p, more, PolicyPath(at), canned, live)
    decreases Height(canned), 1
  {
    var c, l := canned.fields, live.fields;
    forall k | Shared(c, l, k)
      ensures NoNewPathIn(p, more, c, l, k, at, false) <==> FieldWidens(p, more, PolicyPath(at), c, l, k)
    {
      FieldWidensExactly(p, more, c, l, k, at);
    }
    WidensByKey(p, more, PolicyPath(at), c, l);
    if NoNewPath(p, more, canned, live, at, false) {
      forall k | Shared(c, l, k) ensures NoNewPathIn(p, more, c, l, k, at, false) {
        EveryFieldFrom(p, more, canned, live, at, false, k);
      }
    } else if forall k :: Shared(c, l, k) ==> NoNewPathIn(p, more, c, l, k, at, false) {
      FromEveryField(p, more, canned, live, at, false);
    }
  }

  /** A field compared against a threshold is not a container on both sides. */
  ghost predicate ThresholdsApart(p: Policy, prefix: Path, canned: Value, live: Value) {
    forall path: Path :: ThresholdApart(p, prefix, canned, live, path)
  }

  ghost predicate ThresholdApart(p: Policy, prefix: Path, canned: Value, live: Value, path: Path) {
    p.HasMove(prefix + path, ThresholdSide) && At(canned, path).Some? && At(live, path).Some?
    ==> !Containers(At(canned, path).value, At(live, path).value)
  }

  lemma {:induction false} ApartWidens(p: Policy, more: set<Path>, prefix: Path, canned: Value, live: Value, path: Path)
    requires ReadAt(p, prefix, canned, live, path)
    requires !Containers(At(canned, path).value, At(live, path).value)
    ensures WidensAt(p, more, prefix, canned, live, path)
    decreases |path|
  {
    JoinPaths(prefix, path[0], path[1..]);
    assert path == [path[0]] + path[1..];
    if |path| > 1 {
      ApartWidens(p, more, prefix + [path[0]], canned.fields[path[0]], live.fields[path[0]], path[1..]);
    } else {
      assert At(canned.fields[path[0]], path[1..]) == Some(canned.fields[path[0]]);
      assert At(live.fields[path[0]], path[1..]) == Some(live.fields[path[0]]);
    }
  }

  lemma {:induction false} HasMoveWhereRead(p: Policy, prefix: Path, canned: Value, live: Value, path: Path)
    requires ReadAt(p, prefix, canned, live, path)
    ensures p.HasMove(prefix + path, ThresholdSide)
    decreases |path|
  {
    JoinPaths(prefix, path[0], path[1..]);
    assert path == [path[0]] + path[1..];
    if |path| > 1 {
      HasMoveWhereRead(p, prefix + [path[0]], canned.fields[path[0]], live.fields[path[0]], path[1..]);
    }
  }

  /** In particular, when no threshold field holds a container on both sides. */
  lemma Widened(p: Policy, more: set<Path>, canned: Value, live: Value, at: seq<Step>)
    requires (at != [] ==> PolicyPath(at) != []) && ThresholdsApart(p, PolicyPath(at), canned, live)
    ensures Paths(Walked(Widen(p, more), canned, live, at, false)) <= Paths(Walked(p, canned, live, at, false))
  {
    var prefix := PolicyPath(at);
    forall path: Path ensures WidensAt(p, more, prefix, canned, live, path) {
      if ReadAt(p, prefix, canned, live, path) {
        HasMoveWhereRead(p, prefix, canned, live, path);
        assert ThresholdApart(p, prefix, canned, live, path);
        ApartWidens(p, more, prefix, canned, live, path);
      }
    }
    WidensExactly(p, more, canned, live, at);
  }

  /** One object field whose number changed, under a policy that does not forgive it. */
  lemma FieldDrifted(p: Policy, child: string, x: real, y: real, at: seq<Step>)
    requires p.shapeOnly == {} && x != y
    requires PolicyPath(at) + [child] !in p.volatile && PolicyPath(at) + [child] !in p.honest
    ensures Walked(p, Obj(map[child := Num(x)]), Obj(map[child := Num(y)]), at, false) != []
  {
    var canned: Value, live: Value := Obj(map[child := Num(x)]), Obj(map[child := Num(y)]);
    ChildPath(at, child);
    assert Walked(p, Num(x), Num(y), at + [Key(child)], false) == [Drift(at + [Key(child)], ValueDiffers)];
    assert WalkedField(p, canned.fields, live.fields, child, at, false) != [];
    ObjectsClean(p, canned, live, at, false);
  }

  function Reading(key: string, child: string, x: real): Value {
    Obj(map[key := Obj(map[child := Num(x)]), "limit" := Num(1.0)])
  }

  /** A family of payloads that fails: a threshold field holding an object on both sides is
      never descended into, and a volatile one is. */
  lemma ContainersBreakWidening(key: string, child: string, x: real, y: real)
    requires key != "limit" && x != y
    ensures var p := Policy({}, {}, {}, map[[key] := Movement(ThresholdSide, "limit")]);
      && Walked(p, Reading(key, child, x), Reading(key, child, y), [], false) == []
      && Walked(Widen(p, {[key]}), Reading(key, child, x), Reading(key, child, y), [], false) != []
  {
    var p := Policy({}, {}, {}, map[[key] := Movement(ThresholdSide, "limit")]);
    var q := Widen(p, {[key]});
    ThresholdSilent(p, key, child, x, y);
    WidenedLoud(q, key, child, x, y);
  }

  lemma ThresholdSilent(p: Policy, key: string, child: string, x: real, y: real)
    requires key != "limit" && p == Policy({}, {}, {}, map[[key] := Movement(ThresholdSide, "limit")])
    ensures Walked(p, Reading(key, child, x), Reading(key, child, y), [], false) == []
  {
    var c, l := Reading(key, child, x), Reading(key, child, y);
    ChildPath([], key);
    ChildPath([], "limit");
    assert PolicyPath([] + [Key(key)]) == [key];
    assert p.HasMove([key], ThresholdSide) && p.Moves()[[key]].threshold == "limit";
    assert ThresholdDrifts("limit", key, c.fields, l.fields, [] + [Key(key)]) == [];
    assert WalkedField(p, c.fields, l.fields, key, [], false) == [];
    SelfIsClean(p, c.fields["limit"], [Key("limit")], false);
    assert [] + [Key("limit")] == [Key("limit")];
    assert WalkedField(p, c.fields, l.fields, "limit", [], false) == [];
    assert CleanFields(p, c.fields, l.fields, [], false);
    ObjectsClean(p, c, l, [], false);
  }

  lemma WidenedLoud(q: Policy, key: string, child: string, x: real, y: real)
    requires key != "limit" && x != y && q.shapeOnly == {} && q.volatile == {[key]} && q.honest.Keys == {[key]}
    ensures Walked(q, Reading(key, child, x), Reading(key, child, y), [], false) != []
  {
    var c, l := Reading(key, child, x), Reading(key, child, y);
    ChildPath([], key);
    FieldDrifted(q, child, x, y, [Key(key)]);
    assert [] + [Key(key)] == [Key(key)];
    assert WalkedField(q, c.fields, l.fields, key, [], false) != [];
    ObjectsClean(q, c, l, [], false);
  }
}
