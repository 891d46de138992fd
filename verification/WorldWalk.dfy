/** `compare` of evals/fixture_drift.py as it runs: nested walks appending to one shared list of
    drifts, each proved to append what the walk's value says. */
module WorldWalk {
  import opened Json
  import Texts
  import opened WorldComparison
  import WorldAgreement

  lemma {:induction false} OneMoreRow(rows: seq<Value>, row: Value, key: string)
    ensures ValuesOf(rows + [row], key) ==
      ValuesOf(rows, key) + if row.Obj? && key in row.fields then [row.fields[key]] else []
    ensures KeysOf(rows + [row]) == KeysOf(rows) + if row.Obj? then row.fields.Keys else {}
  {
    if rows == [] {
      assert [] + [row] == [row];
    } else {
      assert (rows + [row])[1..] == rows[1..] + [row];
      OneMoreRow(rows[1..], row, key);
    }
  }

  /** What `setdefault(key, []).append(value)` has built once the keys `done` of one more row are in. */
  ghost predicate MergedSoFar(
      merged: map<string, Value>, rows: seq<Value>, row: map<string, Value>, done: set<string>) {
    && merged.Keys == KeysOf(rows) + done
    && forall k <- merged :: Column(merged[k], rows, row, k, k in done)
  }

  ghost predicate Column(column: Value, rows: seq<Value>, row: map<string, Value>, key: string, taken: bool) {
    column == Arr(ValuesOf(rows, key) + if taken && key in row then [row[key]] else [])
  }

  lemma TakeKey(merged: map<string, Value>, rows: seq<Value>, row: map<string, Value>, done: set<string>, key: string)
    requires MergedSoFar(merged, rows, row, done) && key in row && key !in done
    ensures key in merged ==> merged[key].Arr?
    ensures var column := Arr((if key in merged then merged[key].items else []) + [row[key]]);
      MergedSoFar(merged[key := column], rows, row, done + {key})
  {
    NewColumn(merged, rows, row, done, key);
    var column := Arr((if key in merged then merged[key].items else []) + [row[key]]);
    var after := merged[key := column];
    forall k | k in after ensures Column(after[k], rows, row, k, k in done + {key}) {
      if k != key {
        assert Column(merged[k], rows, row, k, k in done);
      }
    }
  }

  lemma NewColumn(merged: map<string, Value>, rows: seq<Value>, row: map<string, Value>, done: set<string>, key: string)
    requires MergedSoFar(merged, rows, row, done) && key in row && key !in done
    ensures key in merged ==> merged[key].Arr?
    ensures Column(Arr((if key in merged then merged[key].items else []) + [row[key]]), rows, row, key, true)
  {
    KeyHasARow(rows, key);
    assert key in merged ==> Column(merged[key], rows, row, key, false);
  }

  lemma NextRow(merged: map<string, Value>, rows: seq<Value>, row: Value, fields: map<string, Value>)
    requires if row.Obj? then fields == row.fields && MergedSoFar(merged, rows, fields, fields.Keys)
      else MergedSoFar(merged, rows, map[], {})
    ensures MergedSoFar(merged, rows + [row], map[], {})
  {
    OneMoreRow(rows, row, "");
    forall k | k in merged ensures Column(merged[k], rows + [row], map[], k, false) {
      OneMoreRow(rows, row, k);
      assert row.Obj? ==> Column(merged[k], rows, fields, k, k in fields.Keys);
      assert !row.Obj? ==> Column(merged[k], rows, map[], k, k in {});
    }
  }

  lemma NothingTaken(merged: map<string, Value>, rows: seq<Value>, row: map<string, Value>)
    requires MergedSoFar(merged, rows, map[], {})
    ensures MergedSoFar(merged, rows, row, {})
    ensures Obj(merged) == Merged(rows)
  {
    forall k | k in merged ensures Column(merged[k], rows, row, k, false) && merged[k] == Arr(ValuesOf(rows, k)) {
      assert Column(merged[k], rows, map[], k, k in {});
      assert merged[k] == Arr(ValuesOf(rows, k));
    }
    assert merged == Merged(rows).fields;
  }

  method AppendRow(before: map<string, Value>, row: map<string, Value>, ghost rows: seq<Value>)
    returns (merged: map<string, Value>)
    requires MergedSoFar(before, rows, row, {})
    ensures MergedSoFar(merged, rows, row, row.Keys)
  {
    merged := before;
    var todo := row.Keys;
    ghost var done: set<string> := {};
    while todo != {}
      invariant todo !! done && todo + done == row.Keys
      invariant MergedSoFar(merged, rows, row, done)
    {
      var key :| key in todo;
      TakeKey(merged, rows, row, done, key);
      merged := merged[key := Arr((if key in merged then merged[key].items else []) + [row[key]])];
      todo, done := todo - {key}, done + {key};
    }
    assert done == row.Keys;
  }

  /** `_merge_rows`: each object's values appended under their keys. */
  method MergeRows(rows: seq<Value>) returns (merged: map<string, Value>)
    ensures Obj(merged) == Merged(rows)
  {
    merged := map[];
    for i := 0 to |rows|
      invariant MergedSoFar(merged, rows[..i], map[], {})
    {
      var row := rows[i];
      assert rows[..i + 1] == rows[..i] + [row];
      if row.Obj? {
        NothingTaken(merged, rows[..i], row.fields);
        merged := AppendRow(merged, row.fields, rows[..i]);
        NextRow(merged, rows[..i], row, row.fields);
      } else {
        NextRow(merged, rows[..i], row, map[]);
      }
    }
    assert rows[..|rows|] == rows;
    NothingTaken(merged, rows, map[]);
  }

  lemma Regroup<T>(a: seq<T>, b: seq<T>, c: seq<T>, d: seq<T>)
    ensures a + b + c + d == a + (b + c + d)
    ensures a + b + c == a + (b + c)
  {
  }

  lemma OneMoreField(
      p: Policy, canned: map<string, Value>, live: map<string, Value>, keys: seq<string>, i: nat, at: seq<Step>,
      inList: bool, bound: nat)
    requires i < |keys| && forall k <- keys :: k in canned && k in live && Height(canned[k]) < bound
    ensures keys[i] in keys
    ensures WalkedFields(p, canned, live, keys[..i + 1], at, inList, bound)
      == WalkedFields(p, canned, live, keys[..i], at, inList, bound) + WalkedField(p, canned, live, keys[i], at, inList)
  {
    assert keys[..i + 1][..i] == keys[..i] && keys[..i + 1][i] == keys[i];
  }

  /** One comparison: the policies it runs under, and the list its walks share. */
  class Comparison {
    const policy: Policy
    var drifts: seq<Drift>

    constructor (policy: Policy)
      ensures this.policy == policy && drifts == []
    {
      this.policy := policy;
      drifts := [];
    }

    method Record(at: seq<Step>, kind: Kind)
      modifies this
      ensures drifts == old(drifts) + [Drift(at, kind)]
    {
      drifts := drifts + [Drift(at, kind)];
    }

    method RecordFields(keys: seq<string>, kind: Kind, at: seq<Step>)
      modifies this
      ensures drifts == old(drifts) + FieldDrifts(keys, kind, at)
    {
      for i := 0 to |keys|
        invariant drifts == old(drifts) + FieldDrifts(keys, kind, at)[..i]
      {
        Record(at + [Key(keys[i])], kind);
        assert FieldDrifts(keys, kind, at)[..i + 1]
          == FieldDrifts(keys, kind, at)[..i] + [Drift(at + [Key(keys[i])], kind)];
      }
    }

    method Member(at: seq<Step>, value: Value, domain: seq<Value>)
      modifies this
      ensures drifts == old(drifts) + MemberDrift(value, domain, at)
    {
      if domain != [] && TypeOf(value) !in TypesOf(domain) {
        Record(at, TypeDiffers);
      } else if !Reachable(value, domain) {
        Record(at, NotLiveReachable);
      }
    }

    method MemberOf(at: seq<Step>, values: seq<Value>, domain: seq<Value>)
      modifies this
      ensures drifts == old(drifts) + MemberDrifts(values, domain, at)
    {
      for i := 0 to |values|
        invariant drifts == old(drifts) + MemberDrifts(values[..i], domain, at)
      {
        assert values[..i + 1][..i] == values[..i];
        Member(at, values[i], domain);
      }
      assert values[..|values|] == values;
    }

    method KeepsSign(at: seq<Step>, value: Value, domain: seq<Value>)
      modifies this
      ensures drifts == old(drifts) + SignDrift(value, domain, at)
    {
      if SignLost(value, domain) {
        Record(at, SignClass);
      }
    }

    method KeepSigns(at: seq<Step>, values: seq<Value>, domain: seq<Value>)
      modifies this
      ensures drifts == old(drifts) + SignDrifts(values, domain, at)
    {
      for i := 0 to |values|
        invariant drifts == old(drifts) + SignDrifts(values[..i], domain, at)
      {
        assert values[..i + 1][..i] == values[..i];
        KeepsSign(at, values[i], domain);
      }
      assert values[..|values|] == values;
    }

    method KeepsFloor(at: seq<Step>, value: Value, domain: seq<Value>)
      modifies this
      ensures drifts == old(drifts) + FloorDrift(value, domain, at)
    {
      if UnderFloor(value, domain) {
        Record(at, BelowFloor);
      }
    }

    method KeepFloors(at: seq<Step>, values: seq<Value>, domain: seq<Value>)
      modifies this
      ensures drifts == old(drifts) + FloorDrifts(values, domain, at)
    {
      for i := 0 to |values|
        invariant drifts == old(drifts) + FloorDrifts(values[..i], domain, at)
      {
        assert values[..i + 1][..i] == values[..i];
        KeepsFloor(at, values[i], domain);
      }
      assert values[..|values|] == values;
    }

    method MovedIds(at: seq<Step>, values: seq<Value>, domain: seq<Value>)
      modifies this
      ensures drifts == old(drifts) + MovedLeafDrifts(MintedId, values, domain, at)
    {
      if |MintedTexts(domain)| < |MintedTexts(values)| {
        Record(at, MintedRowsBelowFloor);
      }
      MemberOf(at, Pinned(values), domain);
    }

    method MovedLeaves(at: seq<Step>, rule: Rule, values: seq<Value>, domain: seq<Value>)
      modifies this
      ensures drifts == old(drifts) + MovedLeafDrifts(rule, values, domain, at)
    {
      if rule.MintedId? {
        MovedIds(at, values, domain);
      } else if TypesMoved(values, domain) {
        Record(at, TypeDiffers);
      } else if rule.WindowCount? || rule.HeldCount? {
        KeepSigns(at, values, domain);
      } else if rule.CountFloor? {
        KeepFloors(at, values, domain);
      }
    }

    method WalkLeaves(canned: Value, live: Value, at: seq<Step>)
      modifies this
      ensures drifts == old(drifts) + LeafDrifts(policy, canned, live, at)
    {
      var path := PolicyPath(at);
      if path in policy.volatile || path in policy.unbounded {
        return;
      }
      var domain, values := Leaves(live), Leaves(canned);
      if path in policy.Moves() {
        MovedLeaves(at, policy.Moves()[path].rule, values, domain);
      } else {
        MemberOf(at, values, domain);
      }
    }

    method MintedRows(at: seq<Step>, canned: seq<Value>, live: seq<Value>)
      modifies this
      ensures drifts == old(drifts) + MintedDrifts(policy, canned, live, at)
    {
      var prefix := PolicyPath(at);
      if !policy.HasMove(prefix + ["id"], MintedId) {
        return;
      }
      var missing :=
        MintedIdentities(canned, prefix, policy.Relaxed()) - MintedIdentities(live, prefix, policy.Relaxed());
      var todo := Distinct(missing);
      ghost var n := 0;
      while todo != {}
        invariant n + |todo| == |Distinct(missing)|
        invariant drifts == old(drifts) + seq(n, _ => Drift(at + [Rows], MintedRowMissing))
      {
        var identity :| identity in todo;
        todo := todo - {identity};
        n := n + 1;
        Record(at + [Rows], MintedRowMissing);
      }
    }

    method MovedScalar(at: seq<Step>, rule: Rule, canned: Value, live: Value)
      modifies this
      ensures drifts == old(drifts) + MovedScalarDrifts(rule, canned, live, at)
    {
      if rule.MintedId? && IsMinted(canned) {
        if !IsMinted(live) {
          Record(at, MintedIdDiffers);
        }
      } else if DiffersInType(canned, live) {
        Record(at, TypeDiffers);
      } else if rule.FiringReading? || rule.WindowReading? {
      } else if (rule.WindowCount? || rule.HeldCount?) && canned.Num? && live.Num? {
        if Sign(canned.n) != Sign(live.n) {
          Record(at, SignClass);
        }
      } else if rule.CountFloor? && canned.Num? && live.Num? {
        if live.n < canned.n {
          Record(at, BelowFloor);
        }
      } else if !Same(canned, live) {
        Record(at, ValueDiffers);
      }
    }

    method ThresholdSided(
        at: seq<Step>, threshold: string, key: string, cannedParent: map<string, Value>, liveParent: map<string, Value>)
      requires key in cannedParent && key in liveParent
      modifies this
      ensures drifts == old(drifts) + ThresholdDrifts(threshold, key, cannedParent, liveParent, at)
    {
      var canned, live := cannedParent[key], liveParent[key];
      var cannedLimit, liveLimit := Field(cannedParent, threshold), Field(liveParent, threshold);
      if DiffersInType(canned, live) {
        Record(at, TypeDiffers);
      } else if !cannedLimit.Num? || !liveLimit.Num? {
        if !Same(canned, live) {
          Record(at, ValueDiffers);
        }
      } else if AtOrOver(canned, cannedLimit.n) != AtOrOver(live, liveLimit.n) {
        Record(at, ThresholdSideDiffers);
      }
    }

    method Scalar(canned: Value, live: Value, at: seq<Step>, inList: bool)
      modifies this
      ensures drifts == old(drifts) + ScalarDrifts(policy, canned, live, at, inList)
    {
      var path := PolicyPath(at);
      if path in policy.volatile {
        if DiffersInType(canned, live) {
          Record(at, TypeDiffers);
        }
      } else if path in policy.Moves() && !inList {
        MovedScalar(at, policy.Moves()[path].rule, canned, live);
      } else if DiffersInType(canned, live) && !inList {
        Record(at, TypeDiffers);
      } else if inList {
        WalkLeaves(canned, live, at);
      } else if !Same(canned, live) {
        Record(at, ValueDiffers);
      }
    }

    method Walk(canned: Value, live: Value, at: seq<Step>, inList: bool)
      modifies this
      ensures drifts == old(drifts) + Walked(policy, canned, live, at, inList)
      decreases Height(canned), if canned.Arr? then 4 else 2
    {
      if at != [] && PolicyPath(at) in policy.shapeOnly {
        drifts := drifts + ShapeDrifts(canned, live, at);
      } else if canned.Obj? && live.Obj? {
        WalkObjects(canned, live, at, inList);
      } else if canned.Arr? && live.Arr? {
        WalkLists(canned.items, live.items, at);
      } else {
        Scalar(canned, live, at, inList);
      }
    }

    method WalkObjects(canned: Value, live: Value, at: seq<Step>, inList: bool)
      requires canned.Obj? && live.Obj?
      modifies this
      ensures drifts == old(drifts) + WalkedObjects(policy, canned, live, at, inList)
      decreases Height(canned), 1
    {
      var c, l := canned.fields, live.fields;
      RecordFields(Texts.Sorted(c.Keys - l.Keys), CannedOnlyField, at);
      RecordFields(Texts.Sorted(l.Keys - c.Keys), LiveOnlyField, at);
      WalkFields(c, l, Texts.Sorted(c.Keys * l.Keys), at, inList, Height(canned));
      Regroup(old(drifts), FieldDrifts(Texts.Sorted(c.Keys - l.Keys), CannedOnlyField, at),
        FieldDrifts(Texts.Sorted(l.Keys - c.Keys), LiveOnlyField, at),
        WalkedFields(policy, c, l, Texts.Sorted(c.Keys * l.Keys), at, inList, Height(canned)));
    }

    method WalkLists(canned: seq<Value>, live: seq<Value>, at: seq<Step>)
      modifies this
      ensures drifts == old(drifts) + WalkedLists(policy, canned, live, at)
      decreases Height(Arr(canned)), 3
    {
      if canned != [] && live == [] {
        if PolicyPath(at) !in policy.volatile {
          Record(at + [Rows], NoLiveRows);
        }
      } else if HasObjects(canned) || HasObjects(live) {
        MintedRows(at, canned, live);
        var cannedRow := MergeRows(canned);
        var liveRow := MergeRows(live);
        MergedIsNoTaller(canned);
        Walk(Obj(cannedRow), Obj(liveRow), at + [Rows], true);
        Regroup(old(drifts), MintedDrifts(policy, canned, live, at),
          Walked(policy, Merged(canned), Merged(live), at + [Rows], true), []);
      } else {
        WalkLeaves(Arr(canned), Arr(live), at + [Rows]);
      }
    }

    method WalkField(canned: map<string, Value>, live: map<string, Value>, key: string, at: seq<Step>, inList: bool)
      requires key in canned && key in live
      modifies this
      ensures drifts == old(drifts) + WalkedField(policy, canned, live, key, at, inList)
      decreases Height(canned[key]), 5
    {
      var child := at + [Key(key)];
      if policy.HasMove(PolicyPath(child), ThresholdSide) && !inList {
        ThresholdSided(child, policy.Moves()[PolicyPath(child)].threshold, key, canned, live);
      } else {
        Walk(canned[key], live[key], child, inList);
      }
    }

    method WalkFields(
        canned: map<string, Value>, live: map<string, Value>, keys: seq<string>, at: seq<Step>, inList: bool,
        ghost bound: nat)
      requires forall k <- keys :: k in canned && k in live && Height(canned[k]) < bound
      modifies this
      ensures drifts == old(drifts) + WalkedFields(policy, canned, live, keys, at, inList, bound)
      decreases bound, 0
    {
      ghost var before := drifts;
      for i := 0 to |keys|
        invariant drifts == before + WalkedFields(policy, canned, live, keys[..i], at, inList, bound)
      {
        assert keys[i] in keys;
        WalkField(canned, live, keys[i], at, inList);
        OneMoreField(policy, canned, live, keys, i, at, inList, bound);
        Regroup(before, WalkedFields(policy, canned, live, keys[..i], at, inList, bound),
          WalkedField(policy, canned, live, keys[i], at, inList), []);
      }
      assert keys[..|keys|] == keys;
    }
  }

  /** `compare`: the drifts of the whole walk, and so none exactly when the two payloads agree under the
      policy. */
  method Compare(policy: Policy, canned: map<string, Value>, live: map<string, Value>) returns (drifts: seq<Drift>)
    ensures drifts == Walked(policy, Obj(canned), Obj(live), [], false)
    ensures drifts == [] <==> WorldAgreement.AgreeUnder(policy, [], Obj(canned), Obj(live))
  {
    var comparison := new Comparison(policy);
    comparison.Walk(Obj(canned), Obj(live), [], false);
    drifts := comparison.drifts;
    WorldAgreement.PayloadsDecide(policy, canned, live);
  }
}
