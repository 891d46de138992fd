/** What agreement comes to in the payloads' own terms: values equal where no list holds them, and in a
    list, what its rows hold at each key path. */
module PlainAgreement {
  import opened Wrappers
  import opened Json
  import opened WorldComparison
  import opened MovementRules
  import opened WorldAgreement

  // ----- Payloads without lists -----

  predicate ListFree(v: Value)
    decreases v
  {
    !v.Arr? && (v.Obj? ==> forall k <- v.fields :: ListFree(v.fields[k]))
  }

  lemma {:induction false} AgreeingIsEqual(canned: Value, live: Value)
    requires ListFree(canned) && ListFree(live)
    ensures Agree(canned, live) <==> canned == live
    decreases canned
  {
    if canned.Obj? && live.Obj? {
      forall k | k in canned.fields && k in live.fields
        ensures Agree(canned.fields[k], live.fields[k]) <==> canned.fields[k] == live.fields[k]
      {
        AgreeingIsEqual(canned.fields[k], live.fields[k]);
      }
      UnrelaxedByKey(canned.fields, live.fields);
      if Agree(canned, live) {
        assert canned.fields == live.fields;
      }
    } else {
      AgreeAtANonObject(canned, live);
    }
  }

  /** With nothing relaxed and no list on either side, the walk is silent exactly when nothing has changed. */
  lemma SilentIsEqual(canned: Value, live: Value, at: seq<Step>)
    requires ListFree(canned) && ListFree(live)
    ensures Walked(NoRelaxation, canned, live, at, false) == [] <==> canned == live
  {
    WalkDecidesAgreement(canned, live, at);
    AgreeingIsEqual(canned, live);
  }

  // ----- One changed value -----

  /** Under any policy, a scalar that changed where the walk arrives, and that no rule speaks of, is a drift. */
  lemma ChangedScalarDrifts(p: Policy, canned: map<string, Value>, live: map<string, Value>, path: Path)
    requires Reached(p, [], Obj(canned), Obj(live), path) && !Cut(p, path)
    requires path !in p.volatile && path !in p.honest
    requires Scalar(At(Obj(canned), path).value) && At(Obj(canned), path) != At(Obj(live), path)
    ensures Walked(p, Obj(canned), Obj(live), [], false) != []
  {
    var c, l := At(Obj(canned), path).value, At(Obj(live), path).value;
    PayloadsDecide(p, canned, live);
    UnmovedScalar(c, l);
    assert [] + path == path;
    assert !NodesAgreeUnder(p, path, c, l);
    assert !AgreeUnderAt(p, [], Obj(canned), Obj(live), path);
  }

  // ----- Lists -----

  /** Some row has this value at this key path. */
  predicate RowHolds(rows: seq<Value>, path: Path, v: Value) {
    exists row <- rows :: At(row, path) == Some(v)
  }

  lemma {:induction false} ValuesAre(rows: seq<Value>, key: string, v: Value)
    ensures v in ValuesOf(rows, key) <==> exists row <- rows :: row.Obj? && key in row.fields && row.fields[key] == v
  {
    if rows != [] {
      ValuesAre(rows[1..], key, v);
      assert rows == [rows[0]] + rows[1..];
    }
  }

  /** A pool is what the rows hold at its path. */
  lemma {:induction false} PoolIsHeld(rows: seq<Value>, path: Path, v: Value)
    ensures v in Pool(rows, path) <==> RowHolds(rows, path, v)
    decreases |path|
  {
    if path == [] {
      if v in rows {
        assert At(v, path) == Some(v);
      }
    } else {
      PoolIsHeld(ValuesOf(rows, path[0]), path[1..], v);
      if row :| row in rows && At(row, path) == Some(v) {
        ValuesAre(rows, path[0], row.fields[path[0]]);
        assert At(row.fields[path[0]], path[1..]) == Some(v);
      }
      if w :| w in ValuesOf(rows, path[0]) && At(w, path[1..]) == Some(v) {
        ValuesAre(rows, path[0], w);
        var row :| row in rows && row.Obj? && path[0] in row.fields && row.fields[path[0]] == w;
        assert At(row, path) == Some(v);
      }
    }
  }

  /** The value at an index path, through lists only. */
  function ItemAt(v: Value, index: seq<nat>): Option<Value> {
    if index == [] then Some(v)
    else if v.Arr? && index[0] < |v.items| then ItemAt(v.items[index[0]], index[1..])
    else None
  }

  /** `leaf` is below `v` through lists only, and is not itself a list or null. */
  ghost predicate LeafOf(v: Value, leaf: Value) {
    !leaf.Arr? && !leaf.Null? && exists index: seq<nat> :: ItemAt(v, index) == Some(leaf)
  }

  lemma {:induction false} NonNullAre(vs: seq<Value>, v: Value)
    ensures v in NonNull(vs) <==> v in vs && !v.Null?
  {
    if vs != [] {
      NonNullAre(vs[1..], v);
      assert vs == [vs[0]] + vs[1..];
    }
  }

  lemma ItemOfAList(items: seq<Value>, leaf: Value)
    requires !leaf.Arr? && !leaf.Null?
    ensures LeafOf(Arr(items), leaf) <==> exists v <- items :: LeafOf(v, leaf)
  {
    if index: seq<nat> :| ItemAt(Arr(items), index) == Some(leaf) {
      var v := items[index[0]];
      assert ItemAt(v, index[1..]) == Some(leaf);
      assert v in items && LeafOf(v, leaf);
    }
    if v :| v in items && LeafOf(v, leaf) {
      var i: nat :| i < |items| && items[i] == v;
      var index: seq<nat> :| ItemAt(v, index) == Some(leaf);
      assert ([i] + index)[1..] == index;
      assert ItemAt(Arr(items), [i] + index) == Some(leaf);
    }
  }

  lemma {:induction false} FlattenIs(v: Value, leaf: Value)
    requires !leaf.Arr? && !leaf.Null?
    ensures leaf in Flatten(v) <==> LeafOf(v, leaf)
    decreases v
  {
    if v.Arr? {
      FlattenAllIs(v.items, leaf);
      ItemOfAList(v.items, leaf);
    } else {
      assert ItemAt(v, []) == Some(v);
    }
  }

  lemma {:induction false} FlattenAllIs(vs: seq<Value>, leaf: Value)
    requires !leaf.Arr? && !leaf.Null?
    ensures leaf in FlattenAll(vs) <==> exists v <- vs :: LeafOf(v, leaf)
    decreases vs
  {
    if vs != [] {
      FlattenIs(vs[0], leaf);
      FlattenAllIs(vs[1..], leaf);
      assert vs == [vs[0]] + vs[1..];
    }
  }

  lemma {:induction false} FlatLeaves(v: Value)
    ensures forall w <- Flatten(v) :: !w.Arr?
    decreases v
  {
    if v.Arr? {
      FlatAllLeaves(v.items);
    }
  }

  lemma {:induction false} FlatAllLeaves(vs: seq<Value>)
    ensures forall w <- FlattenAll(vs) :: !w.Arr?
    decreases vs
  {
    if vs != [] {
      FlatLeaves(vs[0]);
      FlatAllLeaves(vs[1..]);
    }
  }

  /** The leaves of a value are what stands below it through lists only, nulls aside. */
  lemma LeavesAre(v: Value, leaf: Value)
    ensures leaf in Leaves(v) <==> LeafOf(v, leaf)
  {
    NonNullAre(Flatten(v), leaf);
    FlatLeaves(v);
    if !leaf.Arr? && !leaf.Null? {
      FlattenIs(v, leaf);
    }
  }

  // ----- What the rows of two lists say -----

  predicate SomeRowHas(rows: seq<Value>, path: Path) {
    exists row <- rows :: At(row, path).Some?
  }

  predicate SomeRowHasAnObject(rows: seq<Value>, path: Path) {
    exists row <- rows :: At(row, path).Some? && At(row, path).value.Obj?
  }

  ghost predicate SomeRowHasTheLeaf(rows: seq<Value>, path: Path, leaf: Value) {
    exists row <- rows :: At(row, path).Some? && LeafOf(At(row, path).value, leaf)
  }

  /** A leaf of the same JSON type and the same value. */
  ghost predicate LeafMatched(rows: seq<Value>, path: Path, leaf: Value) {
    exists other: Value ::
      SomeRowHasTheLeaf(rows, path, other) && TypeOf(other) == TypeOf(leaf) && Canon(other) == Canon(leaf)
  }

  ghost predicate LeavesMatched(canned: seq<Value>, live: seq<Value>, path: Path) {
    forall leaf: Value :: SomeRowHasTheLeaf(canned, path, leaf) ==> LeafMatched(live, path, leaf)
  }

  /** What recorded rows have live rows have; where a row has an object, all its keys are on both sides; and where
      none does, the live rows have every recorded leaf. */
  ghost predicate RowsAgreeAt(canned: seq<Value>, live: seq<Value>, path: Path) {
    && (SomeRowHas(canned, path) ==> SomeRowHas(live, path))
    && if SomeRowHasAnObject(canned, path) || SomeRowHasAnObject(live, path) then
        forall key :: SomeRowHas(canned, path + [key]) <==> SomeRowHas(live, path + [key])
      else LeavesMatched(canned, live, path)
  }

  lemma {:induction false} AtExtended(row: Value, path: Path, key: string)
    ensures At(row, path + [key]).Some? <==>
      At(row, path).Some? && At(row, path).value.Obj? && key in At(row, path).value.fields
  {
    if path == [] {
      assert path + [key] == [key] && [key][1..] == [];
    } else {
      assert (path + [key])[0] == path[0] && (path + [key])[1..] == path[1..] + [key];
      if row.Obj? && path[0] in row.fields {
        AtExtended(row.fields[path[0]], path[1..], key);
      }
    }
  }

  lemma PoolSays(rows: seq<Value>, path: Path)
    ensures Pool(rows, path) != [] <==> SomeRowHas(rows, path)
    ensures HasObjects(Pool(rows, path)) <==> SomeRowHasAnObject(rows, path)
  {
    if Pool(rows, path) != [] {
      PoolIsHeld(rows, path, Pool(rows, path)[0]);
    }
    forall row | row in rows && At(row, path).Some? ensures At(row, path).value in Pool(rows, path) {
      PoolIsHeld(rows, path, At(row, path).value);
    }
    if v :| v in Pool(rows, path) && v.Obj? {
      PoolIsHeld(rows, path, v);
    }
  }

  lemma PoolKeys(rows: seq<Value>, path: Path, key: string)
    ensures key in KeysOf(Pool(rows, path)) <==> SomeRowHas(rows, path + [key])
  {
    KeyHasARow(Pool(rows, path), key);
    forall row | row in rows {
      AtExtended(row, path, key);
    }
    if v :| v in Pool(rows, path) && v.Obj? && key in v.fields {
      PoolIsHeld(rows, path, v);
    }
    if row :| row in rows && At(row, path + [key]).Some? {
      PoolIsHeld(rows, path, At(row, path).value);
    }
  }

  lemma PoolLeaves(rows: seq<Value>, path: Path, leaf: Value)
    ensures leaf in Leaves(Arr(Pool(rows, path))) <==> SomeRowHasTheLeaf(rows, path, leaf)
  {
    var pool := Pool(rows, path);
    LeavesAre(Arr(pool), leaf);
    if !leaf.Arr? && !leaf.Null? {
      ItemOfAList(pool, leaf);
      if v :| v in pool && LeafOf(v, leaf) {
        PoolIsHeld(rows, path, v);
      }
      if row :| row in rows && At(row, path).Some? && LeafOf(At(row, path).value, leaf) {
        PoolIsHeld(rows, path, At(row, path).value);
      }
    }
  }

  lemma CoveredIsMatched(canned: seq<Value>, live: seq<Value>, path: Path)
    ensures LeavesCovered(Pool(canned, path), Pool(live, path)) <==> LeavesMatched(canned, live, path)
  {
    var mine, theirs := Leaves(Arr(Pool(canned, path))), Leaves(Arr(Pool(live, path)));
    forall leaf ensures leaf in mine <==> SomeRowHasTheLeaf(canned, path, leaf) { PoolLeaves(canned, path, leaf); }
    forall leaf ensures Held(leaf, theirs) <==> LeafMatched(live, path, leaf) { HeldIsMatched(live, path, leaf); }
  }

  lemma HeldIsMatched(rows: seq<Value>, path: Path, leaf: Value)
    ensures Held(leaf, Leaves(Arr(Pool(rows, path)))) <==> LeafMatched(rows, path, leaf)
  {
    forall other ensures other in Leaves(Arr(Pool(rows, path))) <==> SomeRowHasTheLeaf(rows, path, other) {
      PoolLeaves(rows, path, other);
    }
  }

  lemma PoolsAgreeAt(canned: seq<Value>, live: seq<Value>, path: Path)
    ensures PoolsAgree(Pool(canned, path), Pool(live, path)) <==> RowsAgreeAt(canned, live, path)
  {
    PoolSays(canned, path);
    PoolSays(live, path);
    CoveredIsMatched(canned, live, path);
    forall key
      ensures key in KeysOf(Pool(canned, path)) <==> SomeRowHas(canned, path + [key])
      ensures key in KeysOf(Pool(live, path)) <==> SomeRowHas(live, path + [key])
    {
      PoolKeys(canned, path, key);
      PoolKeys(live, path, key);
    }
    KeySetsEqual(KeysOf(Pool(canned, path)), KeysOf(Pool(live, path)));
  }

  lemma KeySetsEqual(a: set<string>, b: set<string>)
    ensures a == b <==> forall key :: key in a <==> key in b
  {
  }

  /** With nothing relaxed, two lists walk silently exactly when their rows agree at every key path. */
  lemma SilentListsAgree(canned: seq<Value>, live: seq<Value>, at: seq<Step>)
    ensures Walked(NoRelaxation, Arr(canned), Arr(live), at, false) == [] <==>
      forall path: Path :: RowsAgreeAt(canned, live, path)
  {
    WalkDecidesAgreement(Arr(canned), Arr(live), at);
    AgreeAtANonObject(Arr(canned), Arr(live));
    forall path: Path {
      PoolsAgreeAt(canned, live, path);
    }
  }
}
