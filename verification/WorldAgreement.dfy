/** What the walk of evals/fixture_drift.py means: a payload never drifts from itself, and under
    any policy the walk is silent exactly when a declarative agreement over key paths holds. */
module WorldAgreement {
  import opened Wrappers
  import opened Json
  import Texts
  import opened WorldComparison
  import opened MovementRules

  // ----- Small facts about the parts -----

  lemma {:induction false} FieldsClean(
      p: Policy, canned: map<string, Value>, live: map<string, Value>, keys: seq<string>, at: seq<Step>, inList: bool,
      bound: nat)
    requires forall k <- keys :: k in canned && k in live && Height(canned[k]) < bound
    ensures WalkedFields(p, canned, live, keys, at, inList, bound) == [] <==>
      forall k <- keys :: WalkedField(p, canned, live, k, at, inList) == []
  {
    if keys != [] {
      var init, key := keys[..|keys| - 1], keys[|keys| - 1];
      assert keys == init + [key];
      FieldsClean(p, canned, live, init, at, inList, bound);
      BothEmpty(WalkedFields(p, canned, live, init, at, inList, bound), WalkedField(p, canned, live, key, at, inList));
      assert WalkedFields(p, canned, live, keys, at, inList, bound)
        == WalkedFields(p, canned, live, init, at, inList, bound) + WalkedField(p, canned, live, key, at, inList);
    }
  }

  lemma ListedNone(s: set<string>, kind: Kind, at: seq<Step>)
    ensures FieldDrifts(Texts.Sorted(s), kind, at) == [] <==> s == {}
  {
  }

  ghost predicate CleanFields(
      p: Policy, canned: map<string, Value>, live: map<string, Value>, at: seq<Step>, inList: bool) {
    canned.Keys == live.Keys && forall k <- canned :: k in live && WalkedField(p, canned, live, k, at, inList) == []
  }

  /** Two objects walk clean exactly when they have the same keys and every field does. */
  lemma {:induction false} ObjectsClean(p: Policy, canned: Value, live: Value, at: seq<Step>, inList: bool)
    requires canned.Obj? && live.Obj? && !(at != [] && PolicyPath(at) in p.shapeOnly)
    ensures Walked(p, canned, live, at, inList) == [] <==> CleanFields(p, canned.fields, live.fields, at, inList)
  {
    var c, l := canned.fields, live.fields;
    var keys := Texts.Sorted(c.Keys * l.Keys);
    var gone := FieldDrifts(Texts.Sorted(c.Keys - l.Keys), CannedOnlyField, at);
    var added := FieldDrifts(Texts.Sorted(l.Keys - c.Keys), LiveOnlyField, at);
    var rest := WalkedFields(p, c, l, keys, at, inList, Height(canned));
    BothEmpty(gone + added, rest);
    BothEmpty(gone, added);
    ListedNone(c.Keys - l.Keys, CannedOnlyField, at);
    ListedNone(l.Keys - c.Keys, LiveOnlyField, at);
    SameKeys(c.Keys, l.Keys);
    if c.Keys == l.Keys {
      RestClean(p, c, l, keys, at, inList, Height(canned));
    }
    assert Walked(p, canned, live, at, inList) == gone + added + rest;
  }

  lemma SameKeys(a: set<string>, b: set<string>)
    ensures a - b == {} && b - a == {} <==> a == b
  {
  }

  lemma {:induction false} RestClean(
      p: Policy, canned: map<string, Value>, live: map<string, Value>, keys: seq<string>, at: seq<Step>, inList: bool,
      bound: nat)
    requires canned.Keys == live.Keys && (forall k :: k in keys <==> k in canned)
    requires forall k <- canned :: Height(canned[k]) < bound
    ensures WalkedFields(p, canned, live, keys, at, inList, bound) == [] <==> CleanFields(p, canned, live, at, inList)
  {
    FieldsClean(p, canned, live, keys, at, inList, bound);
  }

  // ----- A payload never drifts from itself -----

  lemma OwnReachable(values: seq<Value>)
    ensures forall v <- values :: Held(v, values)
  {
  }

  lemma OwnTypes(values: seq<Value>)
    ensures TypesKept(values, values)
  {
  }

  lemma OwnNumbers(values: seq<Value>)
    ensures AllSignsKept(values, values) && AllFloorsKept(values, values)
  {
  }

  lemma OwnRuleKept(rule: Rule, values: seq<Value>)
    ensures LeafRuleKept(rule, values, values)
  {
    OwnReachable(values);
    OwnTypes(values);
    OwnNumbers(values);
  }

  lemma OwnLeavesClean(p: Policy, v: Value, at: seq<Step>)
    ensures LeafDrifts(p, v, v, at) == []
  {
    OwnReachable(Leaves(v));
    if PolicyPath(at) in p.honest {
      OwnRuleKept(p.honest[PolicyPath(at)].rule, Leaves(v));
    }
    LeavesDecide(p, v, v, at);
  }

  /** Under any policy, at any node, in a list or out of one. */
  lemma {:induction false} SelfIsClean(p: Policy, v: Value, at: seq<Step>, inList: bool)
    ensures Walked(p, v, v, at, inList) == []
    decreases Height(v), if v.Arr? then 1 else 0
  {
    OwnLeavesClean(p, v, at);
    OwnLeavesClean(p, v, at + [Rows]);
    SameIsCanonical(v, v);
    if at != [] && PolicyPath(at) in p.shapeOnly {
    } else if v.Obj? {
      forall k | k in v.fields ensures WalkedField(p, v.fields, v.fields, k, at, inList) == [] {
        SelfIsClean(p, v.fields[k], at + [Key(k)], inList);
        SameIsCanonical(v.fields[k], v.fields[k]);
      }
      ObjectsClean(p, v, v, at, inList);
    } else if v.Arr? && HasObjects(v.items) {
      MergedIsNoTaller(v.items);
      SelfIsClean(p, Merged(v.items), at + [Rows], true);
      NoRowMissing(p, v.items, at);
    }
  }

  lemma NoRowMissing(p: Policy, rows: seq<Value>, at: seq<Step>)
    ensures MintedDrifts(p, rows, rows, at) == []
  {
    var ids := MintedIdentities(rows, PolicyPath(at), p.Relaxed());
    assert ids - ids == multiset{};
    assert Distinct(multiset{}) == {};
  }

  // ----- Agreement of lists -----

  /** The values met by following a key path through lists of objects, all rows together. */
  function Pool(values: seq<Value>, path: Path): seq<Value>
    decreases |path|
  {
    if path == [] then values else Pool(ValuesOf(values, path[0]), path[1..])
  }

  predicate Cut(p: Policy, path: Path) {
    path != [] && path in p.shapeOnly
  }

  /** A pool the comparison looks below: not cut, and not recorded rows against none. */
  predicate PoolOpen(p: Policy, path: Path, canned: seq<Value>, live: seq<Value>) {
    !Cut(p, path) && (canned != [] ==> live != [])
  }

  predicate PoolReached(p: Policy, prefix: Path, canned: seq<Value>, live: seq<Value>, path: Path)
    decreases |path|
  {
    path == [] || (PoolOpen(p, prefix, canned, live)
      && PoolReached(p, prefix + [path[0]], ValuesOf(canned, path[0]), ValuesOf(live, path[0]), path[1..]))
  }

  /** Rows of objects carry the same keys and cover the recorded minted rows; leaves are forgiven
      or held by the live list; and only a volatile list may lose all its rows. */
  ghost predicate PoolsAgreeUnder(p: Policy, path: Path, canned: seq<Value>, live: seq<Value>) {
    if Cut(p, path) then ShapesMeet(Leaves(Arr(canned)), Leaves(Arr(live)))
    else if canned != [] && live == [] then path in p.volatile
    else if HasObjects(canned) || HasObjects(live) then
      KeysOf(canned) == KeysOf(live) && RowsCovered(p, path, canned, live)
    else LeavesForgiven(p, path, Leaves(Arr(canned)), Leaves(Arr(live)))
  }

  ghost predicate PoolsAgreeUnderAt(p: Policy, prefix: Path, canned: seq<Value>, live: seq<Value>, path: Path) {
    PoolReached(p, prefix, canned, live, path) ==>
      PoolsAgreeUnder(p, prefix + path, Pool(canned, path), Pool(live, path))
  }

  ghost predicate ListsAgreeUnder(p: Policy, prefix: Path, canned: seq<Value>, live: seq<Value>) {
    forall path: Path :: PoolsAgreeUnderAt(p, prefix, canned, live, path)
  }

  // ----- Agreement of payloads -----

  /** A field compared with its threshold instead of walked. */
  predicate FieldRead(p: Policy, path: Path, canned: map<string, Value>, live: map<string, Value>, key: string)
    requires key in canned && key in live
  {
    p.HasMove(path + [key], ThresholdSide) ==> ReadingKept(p.honest[path + [key]].threshold, key, canned, live)
  }

  ghost predicate NodesAgreeUnder(p: Policy, path: Path, canned: Value, live: Value) {
    if Cut(p, path) then ShapesMeet(Leaves(canned), Leaves(live))
    else if canned.Obj? && live.Obj? then
      && canned.fields.Keys == live.fields.Keys
      && forall k <- canned.fields :: k in live.fields && FieldRead(p, path, canned.fields, live.fields, k)
    else if canned.Arr? && live.Arr? then ListsAgreeUnder(p, path, canned.items, live.items)
    else ScalarForgiven(p, path, canned, live)
  }

  /** A path both payloads have, with no cut and no threshold field on the way to it. */
  predicate Reached(p: Policy, prefix: Path, canned: Value, live: Value, path: Path): (r: bool)
    ensures r ==> At(canned, path).Some? && At(live, path).Some?
    decreases |path|
  {
    path == [] || (canned.Obj? && live.Obj? && path[0] in canned.fields && path[0] in live.fields
      && !Cut(p, prefix) && !p.HasMove(prefix + [path[0]], ThresholdSide)
      && Reached(p, prefix + [path[0]], canned.fields[path[0]], live.fields[path[0]], path[1..]))
  }

  ghost predicate AgreeUnderAt(p: Policy, prefix: Path, canned: Value, live: Value, path: Path) {
    Reached(p, prefix, canned, live, path) ==>
      NodesAgreeUnder(p, prefix + path, At(canned, path).value, At(live, path).value)
  }

  /** What it means for two payloads to agree under a policy: at every path, once that path is reached. */
  ghost predicate AgreeUnder(p: Policy, prefix: Path, canned: Value, live: Value) {
    forall path: Path :: AgreeUnderAt(p, prefix, canned, live, path)
  }

  // ----- The walk of a list decides its agreement -----

  ghost predicate ColumnAgrees(p: Policy, prefix: Path, canned: seq<Value>, live: seq<Value>, key: string) {
    ListsAgreeUnder(p, prefix + [key], ValuesOf(canned, key), ValuesOf(live, key))
  }

  ghost predicate AgreeByColumn(p: Policy, prefix: Path, canned: seq<Value>, live: seq<Value>) {
    PoolsAgreeUnder(p, prefix, canned, live) && forall k :: ColumnAgrees(p, prefix, canned, live, k)
  }

  lemma JoinPaths(prefix: Path, key: string, path: Path)
    ensures ([key] + path)[0] == key && ([key] + path)[1..] == path
    ensures prefix + ([key] + path) == prefix + [key] + path
    ensures prefix + [] == prefix
  {
  }

  lemma ColumnsOfAgreeing(p: Policy, prefix: Path, canned: seq<Value>, live: seq<Value>)
    requires ListsAgreeUnder(p, prefix, canned, live) && PoolOpen(p, prefix, canned, live)
    ensures AgreeByColumn(p, prefix, canned, live)
  {
    JoinPaths(prefix, "", []);
    assert PoolsAgreeUnderAt(p, prefix, canned, live, []);
    forall k ensures ColumnAgrees(p, prefix, canned, live, k) {
      forall path: Path ensures PoolsAgreeUnderAt(p, prefix + [k], ValuesOf(canned, k), ValuesOf(live, k), path) {
        JoinPaths(prefix, k, path);
        assert PoolsAgreeUnderAt(p, prefix, canned, live, [k] + path);
      }
    }
  }

  lemma AgreeingColumns(p: Policy, prefix: Path, canned: seq<Value>, live: seq<Value>)
    requires AgreeByColumn(p, prefix, canned, live)
    ensures ListsAgreeUnder(p, prefix, canned, live)
  {
    forall path: Path ensures PoolsAgreeUnderAt(p, prefix, canned, live, path) {
      JoinPaths(prefix, "", []);
      if path != [] {
        var key, rest := path[0], path[1..];
        JoinPaths(prefix, key, rest);
        assert path == [key] + rest;
        assert ColumnAgrees(p, prefix, canned, live, key);
        assert PoolsAgreeUnderAt(p, prefix + [key], ValuesOf(canned, key), ValuesOf(live, key), rest);
      }
    }
  }

  /** Lists agree exactly when their own pools do and, where the comparison looks below them, the
      values under each key do. */
  lemma ListsAgreeByKey(p: Policy, prefix: Path, canned: seq<Value>, live: seq<Value>)
    ensures ListsAgreeUnder(p, prefix, canned, live) <==>
      if PoolOpen(p, prefix, canned, live) then AgreeByColumn(p, prefix, canned, live)
      else PoolsAgreeUnder(p, prefix, canned, live)
  {
    if PoolOpen(p, prefix, canned, live) {
      if ListsAgreeUnder(p, prefix, canned, live) {
        ColumnsOfAgreeing(p, prefix, canned, live);
      }
      if AgreeByColumn(p, prefix, canned, live) {
        AgreeingColumns(p, prefix, canned, live);
      }
    } else {
      JoinPaths(prefix, "", []);
      if ListsAgreeUnder(p, prefix, canned, live) {
        assert PoolsAgreeUnderAt(p, prefix, canned, live, []);
      }
    }
  }

  lemma {:induction false} EmptyPool(path: Path)
    ensures Pool([], path) == []
  {
    if path != [] {
      EmptyPool(path[1..]);
    }
  }

  lemma EmptyListsAgree(p: Policy, prefix: Path)
    ensures ListsAgreeUnder(p, prefix, [], [])
  {
    forall path: Path ensures PoolsAgreeUnderAt(p, prefix, [], [], path) {
      EmptyPool(path);
      assert Leaves(Arr([])) == [];
    }
  }

  lemma {:induction false} NoObjectsNoValues(rows: seq<Value>, key: string)
    requires !HasObjects(rows)
    ensures ValuesOf(rows, key) == []
  {
    if rows != [] {
      assert rows[0] in rows;
      assert forall v <- rows[1..] :: v in rows;
      NoObjectsNoValues(rows[1..], key);
    }
  }

  lemma LeafListsAgree(p: Policy, prefix: Path, canned: seq<Value>, live: seq<Value>)
    requires !HasObjects(canned) && !HasObjects(live)
    ensures ListsAgreeUnder(p, prefix, canned, live) <==> PoolsAgreeUnder(p, prefix, canned, live)
  {
    ListsAgreeByKey(p, prefix, canned, live);
    forall k ensures ColumnAgrees(p, prefix, canned, live, k) {
      NoObjectsNoValues(canned, k);
      NoObjectsNoValues(live, k);
      EmptyListsAgree(p, prefix + [k]);
    }
  }

  lemma ChildPath(at: seq<Step>, key: string)
    ensures PolicyPath(at + [Key(key)]) == PolicyPath(at) + [key]
    ensures PolicyPath(at + [Rows]) == PolicyPath(at)
  {
    assert (at + [Key(key)])[..|at|] == at && (at + [Rows])[..|at|] == at;
  }

  /** Two lists walk silently exactly when they agree, in a list or out of one. */
  lemma {:induction false} ListWalk(p: Policy, canned: seq<Value>, live: seq<Value>, at: seq<Step>, inList: bool)
    requires [] !in p.shapeOnly || PolicyPath(at) != []
    ensures Walked(p, Arr(canned), Arr(live), at, inList) == [] <==> ListsAgreeUnder(p, PolicyPath(at), canned, live)
    decreases Height(Arr(canned)), 3
  {
    var path, rows := PolicyPath(at), at + [Rows];
    ListsAgreeByKey(p, path, canned, live);
    ChildPath(at, "");
    if Cut(p, path) {
      ShapeDecides(Arr(canned), Arr(live), at);
    } else if canned != [] && live == [] {
    } else if HasObjects(canned) || HasObjects(live) {
      RowsDecide(p, canned, live, at);
      assert Walked(p, Arr(canned), Arr(live), at, inList)
        == MintedDrifts(p, canned, live, at) + Walked(p, Merged(canned), Merged(live), rows, true);
    } else {
      LeafListsAgree(p, path, canned, live);
      LeavesDecide(p, Arr(canned), Arr(live), rows);
    }
  }

  lemma {:induction false} RowsDecide(p: Policy, canned: seq<Value>, live: seq<Value>, at: seq<Step>)
    requires PolicyPath(at) !in p.shapeOnly && PoolOpen(p, PolicyPath(at), canned, live)
    requires HasObjects(canned) || HasObjects(live)
    ensures MintedDrifts(p, canned, live, at) + Walked(p, Merged(canned), Merged(live), at + [Rows], true) == []
      <==> AgreeByColumn(p, PolicyPath(at), canned, live)
    decreases Height(Arr(canned)), 2, 1
  {
    var path := PolicyPath(at);
    MintedDecides(p, canned, live, at);
    RowWalk(p, canned, live, at);
    BothEmpty(MintedDrifts(p, canned, live, at), Walked(p, Merged(canned), Merged(live), at + [Rows], true));
    RowsByColumn(p, path, canned, live);
  }

  lemma RowsByColumn(p: Policy, path: Path, canned: seq<Value>, live: seq<Value>)
    requires PoolOpen(p, path, canned, live) && (HasObjects(canned) || HasObjects(live))
    ensures AgreeByColumn(p, path, canned, live) <==>
      RowsCovered(p, path, canned, live) && RowsAgree(p, path, canned, live)
  {
    if RowsAgree(p, path, canned, live) {
      AbsentColumnsAgree(p, path, canned, live);
    }
  }

  lemma {:induction false} ColumnWalk(p: Policy, canned: seq<Value>, live: seq<Value>, key: string, at: seq<Step>)
    requires key in KeysOf(canned) && key in KeysOf(live)
    ensures WalkedField(p, Merged(canned).fields, Merged(live).fields, key, at, true) == []
      <==> ColumnAgrees(p, PolicyPath(at), canned, live, key)
    decreases Height(Arr(canned)), 0
  {
    ColumnIsShorter(canned, key);
    ChildPath(at, key);
    ListWalk(p, ValuesOf(canned, key), ValuesOf(live, key), at + [Key(key)], true);
  }

  ghost predicate RowsAgree(p: Policy, prefix: Path, canned: seq<Value>, live: seq<Value>) {
    KeysOf(canned) == KeysOf(live) && forall k <- KeysOf(canned) :: ColumnAgrees(p, prefix, canned, live, k)
  }

  lemma {:induction false} RowFields(p: Policy, canned: seq<Value>, live: seq<Value>, at: seq<Step>)
    ensures CleanFields(p, Merged(canned).fields, Merged(live).fields, at, true) <==>
      RowsAgree(p, PolicyPath(at), canned, live)
    decreases Height(Arr(canned)), 1
  {
    assert Merged(canned).fields.Keys == KeysOf(canned) && Merged(live).fields.Keys == KeysOf(live);
    forall k | k in KeysOf(canned) && k in KeysOf(live)
      ensures WalkedField(p, Merged(canned).fields, Merged(live).fields, k, at, true) == []
        <==> ColumnAgrees(p, PolicyPath(at), canned, live, k)
    {
      ColumnWalk(p, canned, live, k, at);
    }
  }

  lemma {:induction false} RowWalk(p: Policy, canned: seq<Value>, live: seq<Value>, at: seq<Step>)
    requires PolicyPath(at) !in p.shapeOnly
    ensures Walked(p, Merged(canned), Merged(live), at + [Rows], true) == [] <==>
      RowsAgree(p, PolicyPath(at), canned, live)
    decreases Height(Arr(canned)), 2, 0
  {
    ChildPath(at, "");
    RowFields(p, canned, live, at + [Rows]);
    ObjectsClean(p, Merged(canned), Merged(live), at + [Rows], true);
  }

  lemma AbsentColumnsAgree(p: Policy, prefix: Path, canned: seq<Value>, live: seq<Value>)
    requires RowsAgree(p, prefix, canned, live)
    ensures forall k :: ColumnAgrees(p, prefix, canned, live, k)
  {
    forall k ensures ColumnAgrees(p, prefix, canned, live, k) {
      KeyHasARow(canned, k);
      KeyHasARow(live, k);
      EmptyListsAgree(p, prefix + [k]);
    }
  }

  // ----- The walk of a payload decides its agreement -----

  ghost predicate FieldAgrees(
      p: Policy, prefix: Path, canned: map<string, Value>, live: map<string, Value>, key: string)
    requires key in canned && key in live
  {
    && FieldRead(p, prefix, canned, live, key)
    && (!p.HasMove(prefix + [key], ThresholdSide) ==> AgreeUnder(p, prefix + [key], canned[key], live[key]))
  }

  ghost predicate FieldsAgree(p: Policy, prefix: Path, canned: map<string, Value>, live: map<string, Value>) {
    canned.Keys == live.Keys && forall k <- canned :: k in live && FieldAgrees(p, prefix, canned, live, k)
  }

  lemma SharedKey(p: Policy, prefix: Path, canned: map<string, Value>, live: map<string, Value>, key: string)
    requires AgreeUnder(p, prefix, Obj(canned), Obj(live)) && key in canned && key in live
    requires !Cut(p, prefix) && !p.HasMove(prefix + [key], ThresholdSide)
    ensures AgreeUnder(p, prefix + [key], canned[key], live[key])
  {
    forall path: Path ensures AgreeUnderAt(p, prefix + [key], canned[key], live[key], path) {
      JoinPaths(prefix, key, path);
      assert AgreeUnderAt(p, prefix, Obj(canned), Obj(live), [key] + path);
    }
  }

  /** Objects agree exactly when they have the same keys and agree field by field. */
  lemma AgreeByKey(p: Policy, prefix: Path, canned: map<string, Value>, live: map<string, Value>)
    requires !Cut(p, prefix)
    ensures AgreeUnder(p, prefix, Obj(canned), Obj(live)) <==> FieldsAgree(p, prefix, canned, live)
  {
    JoinPaths(prefix, "", []);
    if AgreeUnder(p, prefix, Obj(canned), Obj(live)) {
      assert AgreeUnderAt(p, prefix, Obj(canned), Obj(live), []);
      forall k | k in canned ensures k in live && FieldAgrees(p, prefix, canned, live, k) {
        if !p.HasMove(prefix + [k], ThresholdSide) {
          SharedKey(p, prefix, canned, live, k);
        }
      }
    }
    if FieldsAgree(p, prefix, canned, live) {
      forall path: Path ensures AgreeUnderAt(p, prefix, Obj(canned), Obj(live), path) {
        AgreeBelow(p, prefix, canned, live, path);
      }
    }
  }

  lemma AgreeBelow(p: Policy, prefix: Path, canned: map<string, Value>, live: map<string, Value>, path: Path)
    requires !Cut(p, prefix) && FieldsAgree(p, prefix, canned, live)
    ensures AgreeUnderAt(p, prefix, Obj(canned), Obj(live), path)
  {
    JoinPaths(prefix, "", []);
    if path != [] && Reached(p, prefix, Obj(canned), Obj(live), path) {
      var key, rest := path[0], path[1..];
      JoinPaths(prefix, key, rest);
      assert path == [key] + rest;
      assert FieldAgrees(p, prefix, canned, live, key);
      assert AgreeUnderAt(p, prefix + [key], canned[key], live[key], rest);
    }
  }

  lemma AgreeAtALeaf(p: Policy, prefix: Path, canned: Value, live: Value)
    requires Cut(p, prefix) || !(canned.Obj? && live.Obj?)
    ensures AgreeUnder(p, prefix, canned, live) <==> NodesAgreeUnder(p, prefix, canned, live)
  {
    JoinPaths(prefix, "", []);
    if AgreeUnder(p, prefix, canned, live) {
      assert AgreeUnderAt(p, prefix, canned, live, []);
    }
  }

  lemma {:induction false} FieldsDecide(p: Policy, canned: map<string, Value>, live: map<string, Value>, at: seq<Step>)
    ensures CleanFields(p, canned, live, at, false) <==> FieldsAgree(p, PolicyPath(at), canned, live)
    decreases Height(Obj(canned)), 0
  {
    forall k | k in canned && k in live
      ensures WalkedField(p, canned, live, k, at, false) == [] <==> FieldAgrees(p, PolicyPath(at), canned, live, k)
    {
      var whole, child := Obj(canned), at + [Key(k)];
      assert Height(whole.fields[k]) < Height(whole);
      ChildPath(at, k);
      if p.HasMove(PolicyPath(child), ThresholdSide) {
        ReadingDecides(p.honest[PolicyPath(child)].threshold, k, canned, live, child);
      } else {
        WalkDecides(p, canned[k], live[k], child);
      }
    }
  }

  /** Under any policy, at any node outside lists. */
  lemma {:induction false} WalkDecides(p: Policy, canned: Value, live: Value, at: seq<Step>)
    requires [] !in p.shapeOnly || PolicyPath(at) != [] || (at == [] && canned.Obj? && live.Obj?)
    ensures Walked(p, canned, live, at, false) == [] <==> AgreeUnder(p, PolicyPath(at), canned, live)
    decreases Height(canned), 1
  {
    var path := PolicyPath(at);
    if canned.Obj? && live.Obj? && !Cut(p, path) {
      FieldsDecide(p, canned.fields, live.fields, at);
      AgreeByKey(p, path, canned.fields, live.fields);
      ObjectsClean(p, canned, live, at, false);
    } else {
      AgreeAtALeaf(p, path, canned, live);
      if Cut(p, path) {
        ShapeDecides(canned, live, at);
      } else if canned.Arr? && live.Arr? {
        ListWalk(p, canned.items, live.items, at, false);
      } else {
        ScalarDecides(p, canned, live, at);
      }
    }
  }

  /** The whole comparison of two payloads reports nothing exactly when they agree under its policy. */
  lemma PayloadsDecide(p: Policy, canned: map<string, Value>, live: map<string, Value>)
    ensures Walked(p, Obj(canned), Obj(live), [], false) == [] <==> AgreeUnder(p, [], Obj(canned), Obj(live))
  {
    WalkDecides(p, Obj(canned), Obj(live), []);
  }

  // ----- With nothing relaxed -----

  /** Every non-null recorded leaf is a value the live list holds, with its JSON type. */
  ghost predicate LeavesCovered(canned: seq<Value>, live: seq<Value>) {
    forall v <- Leaves(Arr(canned)) :: Held(v, Leaves(Arr(live)))
  }

  ghost predicate PoolsAgree(canned: seq<Value>, live: seq<Value>) {
    && (canned != [] ==> live != [])
    && if HasObjects(canned) || HasObjects(live) then KeysOf(canned) == KeysOf(live) else LeavesCovered(canned, live)
  }

  ghost predicate ListsAgree(canned: seq<Value>, live: seq<Value>) {
    forall path: Path :: PoolsAgree(Pool(canned, path), Pool(live, path))
  }

  ghost predicate NodesAgree(canned: Value, live: Value) {
    if canned.Obj? && live.Obj? then true
    else if canned.Arr? && live.Arr? then ListsAgree(canned.items, live.items)
    else Unmoved(canned, live)
  }

  /** Both payloads have a node there or neither does, and the two nodes agree. */
  ghost predicate AgreeAt(canned: Value, live: Value, path: Path) {
    match (At(canned, path), At(live, path))
    case (Some(c), Some(l)) => NodesAgree(c, l)
    case (None, None) => true
    case _ => false
  }

  ghost predicate Agree(canned: Value, live: Value) {
    forall path: Path :: AgreeAt(canned, live, path)
  }

  lemma {:induction false} EveryPoolAgrees(prefix: Path, canned: seq<Value>, live: seq<Value>, path: Path)
    requires ListsAgreeUnder(NoRelaxation, prefix, canned, live)
    ensures PoolsAgree(Pool(canned, path), Pool(live, path))
    decreases |path|
  {
    ListsAgreeByKey(NoRelaxation, prefix, canned, live);
    if path != [] {
      assert ColumnAgrees(NoRelaxation, prefix, canned, live, path[0]);
      EveryPoolAgrees(prefix + [path[0]], ValuesOf(canned, path[0]), ValuesOf(live, path[0]), path[1..]);
    }
  }

  lemma UnrelaxedLists(prefix: Path, canned: seq<Value>, live: seq<Value>)
    ensures ListsAgreeUnder(NoRelaxation, prefix, canned, live) <==> ListsAgree(canned, live)
  {
    if ListsAgreeUnder(NoRelaxation, prefix, canned, live) {
      forall path: Path ensures PoolsAgree(Pool(canned, path), Pool(live, path)) {
        EveryPoolAgrees(prefix, canned, live, path);
      }
    }
    if ListsAgree(canned, live) {
      forall path: Path ensures PoolsAgreeUnderAt(NoRelaxation, prefix, canned, live, path) {
        assert PoolsAgree(Pool(canned, path), Pool(live, path));
      }
    }
  }

  lemma AtKey(fields: map<string, Value>, key: string, path: Path)
    ensures At(Obj(fields), [key] + path) == if key in fields then At(fields[key], path) else None
  {
    assert ([key] + path)[0] == key && ([key] + path)[1..] == path;
  }

  lemma SameKey(canned: map<string, Value>, live: map<string, Value>, key: string)
    requires Agree(Obj(canned), Obj(live))
    ensures key in canned <==> key in live
    ensures key in canned ==> Agree(canned[key], live[key])
  {
    AtKey(canned, key, []);
    AtKey(live, key, []);
    assert AgreeAt(Obj(canned), Obj(live), [key] + []);
    if key in canned {
      forall path: Path ensures AgreeAt(canned[key], live[key], path) {
        AtKey(canned, key, path);
        AtKey(live, key, path);
        assert AgreeAt(Obj(canned), Obj(live), [key] + path);
      }
    }
  }

  lemma UnrelaxedByKey(canned: map<string, Value>, live: map<string, Value>)
    ensures Agree(Obj(canned), Obj(live)) <==>
      canned.Keys == live.Keys && forall k <- canned :: k in live && Agree(canned[k], live[k])
  {
    if Agree(Obj(canned), Obj(live)) {
      forall k ensures (k in canned <==> k in live) && (k in canned ==> Agree(canned[k], live[k])) {
        SameKey(canned, live, k);
      }
    }
    if canned.Keys == live.Keys && forall k <- canned :: k in live && Agree(canned[k], live[k]) {
      forall path: Path ensures AgreeAt(Obj(canned), Obj(live), path) {
        if path != [] && path[0] in canned {
          assert Agree(canned[path[0]], live[path[0]]);
          assert AgreeAt(canned[path[0]], live[path[0]], path[1..]);
        }
      }
    }
  }

  lemma AgreeAtANonObject(canned: Value, live: Value)
    requires !(canned.Obj? && live.Obj?)
    ensures Agree(canned, live) <==> NodesAgree(canned, live)
  {
    if Agree(canned, live) {
      assert AgreeAt(canned, live, []);
    }
    if NodesAgree(canned, live) {
      assert !canned.Obj? && !live.Obj?;
      forall path: Path ensures AgreeAt(canned, live, path) {
      }
    }
  }

  lemma {:induction false} Unrelaxed(prefix: Path, canned: Value, live: Value)
    ensures AgreeUnder(NoRelaxation, prefix, canned, live) <==> Agree(canned, live)
    decreases canned
  {
    if canned.Obj? && live.Obj? {
      var c, l := canned.fields, live.fields;
      forall k | k in c && k in l
        ensures FieldAgrees(NoRelaxation, prefix, c, l, k) <==> Agree(c[k], l[k])
      {
        Unrelaxed(prefix + [k], c[k], l[k]);
      }
      AgreeByKey(NoRelaxation, prefix, c, l);
      UnrelaxedByKey(c, l);
    } else {
      AgreeAtALeaf(NoRelaxation, prefix, canned, live);
      AgreeAtANonObject(canned, live);
      if canned.Arr? && live.Arr? {
        UnrelaxedLists(prefix, canned.items, live.items);
      }
    }
  }

  /** With nothing relaxed, the walk is silent exactly when the payloads agree: the same keys and
      the same scalars outside lists, and inside a list the same merged keys and no recorded
      non-null leaf the live list does not hold. */
  lemma WalkDecidesAgreement(canned: Value, live: Value, at: seq<Step>)
    ensures Walked(NoRelaxation, canned, live, at, false) == [] <==> Agree(canned, live)
  {
    WalkDecides(NoRelaxation, canned, live, at);
    Unrelaxed(PolicyPath(at), canned, live);
  }
}
