/** What evals/fixture_drift.py can hide by setting raised rows aside before the walk, exactly, and what
    it cannot. */
module SetAside {
  import opened Wrappers
  import opened Json
  import opened WorldComparison
  import opened MovementRules
  import opened WorldAgreement
  import opened ObservedPair

  // ----- Rows left in their order -----

  /** The values of `some` are among those of `all`, in the same order. */
  ghost predicate Sublist(some: seq<Value>, all: seq<Value>) {
    if all == [] then some == []
    else (some != [] && some[0] == all[0] && Sublist(some[1..], all[1..])) || Sublist(some, all[1..])
  }

  lemma {:induction false} OneMoreAtTheFront(some: seq<Value>, all: seq<Value>, x: Value)
    requires Sublist(some, all)
    ensures Sublist(some, [x] + all) && Sublist([x] + some, [x] + all)
  {
    assert ([x] + all)[1..] == all && ([x] + some)[1..] == some;
  }

  lemma {:induction false} OneMoreAtTheBack(some: seq<Value>, all: seq<Value>, x: Value)
    requires Sublist(some, all)
    ensures Sublist(some, all + [x]) && Sublist(some + [x], all + [x])
  {
    if all == [] {
      assert [] + [x] == [x] && [x][1..] == [];
    } else {
      assert all + [x] == [all[0]] + (all[1..] + [x]);
      if some != [] && some[0] == all[0] && Sublist(some[1..], all[1..]) {
        OneMoreAtTheBack(some[1..], all[1..], x);
        assert some == [some[0]] + some[1..] && some + [x] == [some[0]] + (some[1..] + [x]);
        OneMoreAtTheFront(some[1..], all[1..] + [x], all[0]);
        OneMoreAtTheFront(some[1..] + [x], all[1..] + [x], all[0]);
      } else {
        OneMoreAtTheBack(some, all[1..], x);
        OneMoreAtTheFront(some, all[1..] + [x], all[0]);
        OneMoreAtTheFront(some + [x], all[1..] + [x], all[0]);
      }
    }
  }

  lemma {:induction false} KeptAreLive(live: seq<Value>, known: set<Value>, key: string, relaxed: set<Path>)
    ensures Sublist(Kept(live, known, key, relaxed), live)
  {
    if live != [] {
      var init, last := live[..|live| - 1], live[|live| - 1];
      KeptAreLive(init, known, key, relaxed);
      OneMoreAtTheBack(Kept(init, known, key, relaxed), init, last);
      assert live == init + [last];
      assert Kept(init, known, key, relaxed) + [] == Kept(init, known, key, relaxed);
    }
  }

  lemma {:induction false} SomeAreAmongAll(some: seq<Value>, all: seq<Value>)
    requires Sublist(some, all)
    ensures forall v <- some :: v in all
    ensures HasObjects(some) ==> HasObjects(all)
    ensures KeysOf(some) <= KeysOf(all)
  {
    if all != [] {
      assert all == [all[0]] + all[1..];
      if some != [] && some[0] == all[0] && Sublist(some[1..], all[1..]) {
        SomeAreAmongAll(some[1..], all[1..]);
        assert some == [some[0]] + some[1..];
      } else {
        SomeAreAmongAll(some, all[1..]);
      }
    }
  }

  lemma {:induction false} SublistMinted(some: seq<Value>, all: seq<Value>, prefix: Path, relaxed: set<Path>)
    requires Sublist(some, all)
    ensures MintedIdentities(some, prefix, relaxed) <= MintedIdentities(all, prefix, relaxed)
  {
    if all != [] {
      if some != [] && some[0] == all[0] && Sublist(some[1..], all[1..]) {
        SublistMinted(some[1..], all[1..], prefix, relaxed);
      } else {
        SublistMinted(some, all[1..], prefix, relaxed);
      }
    }
  }

  lemma ValuesOfFirst(rows: seq<Value>, key: string)
    requires rows != []
    ensures ValuesOf(rows, key) ==
      if rows[0].Obj? && key in rows[0].fields then [rows[0].fields[key]] + ValuesOf(rows[1..], key)
        else ValuesOf(rows[1..], key)
  {
  }

  lemma {:induction false} SublistValues(some: seq<Value>, all: seq<Value>, key: string)
    requires Sublist(some, all)
    ensures Sublist(ValuesOf(some, key), ValuesOf(all, key))
  {
    if all != [] {
      var x, rest := all[0], ValuesOf(all[1..], key);
      ValuesOfFirst(all, key);
      if some != [] && some[0] == x && Sublist(some[1..], all[1..]) {
        ValuesOfFirst(some, key);
        SublistValues(some[1..], all[1..], key);
        if x.Obj? && key in x.fields {
          OneMoreAtTheFront(ValuesOf(some[1..], key), rest, x.fields[key]);
        }
      } else {
        SublistValues(some, all[1..], key);
        if x.Obj? && key in x.fields {
          OneMoreAtTheFront(ValuesOf(some, key), rest, x.fields[key]);
        }
      }
    }
  }

  lemma {:induction false} SublistPool(some: seq<Value>, all: seq<Value>, path: Path)
    requires Sublist(some, all)
    ensures Sublist(Pool(some, path), Pool(all, path))
    decreases |path|
  {
    if path != [] {
      SublistValues(some, all, path[0]);
      SublistPool(ValuesOf(some, path[0]), ValuesOf(all, path[0]), path[1..]);
    }
  }

  // ----- Leaves -----

  lemma {:induction false} FlattenedMember(vs: seq<Value>, v: Value)
    ensures v in FlattenAll(vs) <==> exists w <- vs :: v in Flatten(w)
  {
    if vs != [] {
      FlattenedMember(vs[1..], v);
      assert vs[0] in vs && forall w <- vs[1..] :: w in vs;
      if w :| w in vs && v in Flatten(w) {
        assert w == vs[0] || w in vs[1..];
      }
    }
  }

  lemma {:induction false} NonNullMember(vs: seq<Value>, v: Value)
    ensures v in NonNull(vs) <==> v in vs && !v.Null?
  {
    if vs != [] {
      NonNullMember(vs[1..], v);
      assert vs == [vs[0]] + vs[1..];
    }
  }

  ghost predicate Among(some: seq<Value>, all: seq<Value>) {
    forall v <- some :: v in all
  }

  lemma AmongLeaves(some: seq<Value>, all: seq<Value>)
    requires Among(some, all)
    ensures Among(Leaves(Arr(some)), Leaves(Arr(all)))
  {
    forall v | v in Leaves(Arr(some)) ensures v in Leaves(Arr(all)) {
      NonNullMember(FlattenAll(some), v);
      NonNullMember(FlattenAll(all), v);
      FlattenedMember(some, v);
      FlattenedMember(all, v);
    }
  }

  // ----- What a rule can miss -----

  /** What the raised values would have broken: a rule that reads the types or the numbers of the live list. */
  ghost predicate RuleAddsNothing(rule: Rule, values: seq<Value>, kept: seq<Value>, domain: seq<Value>) {
    match rule
    case MintedId => true
    case WindowCount | HeldCount => TypesKept(values, domain) && (HasNumbers(kept) || AllSignsKept(values, domain))
    case CountFloor => TypesKept(values, domain) && (HasNumbers(kept) || AllFloorsKept(values, domain))
    case FiringReading | WindowReading | ThresholdSide => TypesKept(values, domain)
  }

  ghost predicate LeavesAddNothing(p: Policy, path: Path, values: seq<Value>, kept: seq<Value>, domain: seq<Value>) {
    path in p.volatile || path in p.unbounded || path !in p.honest
      || RuleAddsNothing(p.honest[path].rule, values, kept, domain)
  }

  lemma MoreToReach(values: seq<Value>, kept: seq<Value>, domain: seq<Value>)
    requires Among(kept, domain)
    ensures forall v <- values :: Held(v, kept) ==> Held(v, domain)
    ensures forall v <- values :: PinnedKept(v, kept) ==> PinnedKept(v, domain)
  {
  }

  lemma MoreNumbers(values: seq<Value>, kept: seq<Value>, domain: seq<Value>)
    requires Among(kept, domain) && HasNumbers(kept)
    ensures AllSignsKept(values, kept) ==> AllSignsKept(values, domain)
    ensures AllFloorsKept(values, kept) ==> AllFloorsKept(values, domain)
  {
    if AllSignsKept(values, kept) {
      forall v | v in values ensures SignKept(v, domain) {
        assert SignKept(v, kept);
      }
    }
    if AllFloorsKept(values, kept) {
      forall v | v in values ensures FloorKept(v, domain) {
        assert FloorKept(v, kept);
      }
    }
  }

  lemma MoreMinted(kept: seq<Value>, domain: seq<Value>)
    requires Among(kept, domain)
    ensures |RandomIds(kept)| <= |RandomIds(domain)|
  {
    SubsetSize(RandomIds(kept), RandomIds(domain));
  }

  lemma {:induction false} SubsetSize<T>(a: set<T>, b: set<T>)
    requires a <= b
    ensures |a| <= |b|
  {
    if a != {} {
      var x :| x in a;
      SubsetSize(a - {x}, b - {x});
    }
  }

  lemma RuleHides(rule: Rule, values: seq<Value>, kept: seq<Value>, domain: seq<Value>)
    requires Among(kept, domain) && LeafRuleKept(rule, values, kept)
    ensures LeafRuleKept(rule, values, domain) <==> RuleAddsNothing(rule, values, kept, domain)
  {
    if rule.MintedId? {
      MoreToReach(values, kept, domain);
      MoreMinted(kept, domain);
    } else if HasNumbers(kept) {
      MoreNumbers(values, kept, domain);
    }
  }

  lemma LeavesHide(p: Policy, path: Path, values: seq<Value>, kept: seq<Value>, domain: seq<Value>)
    requires Among(kept, domain) && LeavesForgiven(p, path, values, kept)
    ensures LeavesForgiven(p, path, values, domain) <==> LeavesAddNothing(p, path, values, kept, domain)
  {
    if path in p.volatile || path in p.unbounded {
    } else if path in p.honest {
      RuleHides(p.honest[path].rule, values, kept, domain);
    } else {
      MoreToReach(values, kept, domain);
    }
  }

  // ----- What one pool can miss -----

  /** What the live values add to the kept ones, where the recorded ones agree with the kept: no key that no
      recorded row has, and nothing a rule would have reported. Where nothing at all was kept, nothing was
      compared, and the whole comparison is what could be missed. */
  ghost predicate AddsNothing(p: Policy, path: Path, recorded: seq<Value>, kept: seq<Value>, live: seq<Value>) {
    if Cut(p, path) then
      Leaves(Arr(kept)) != [] || ShapesMeet(Leaves(Arr(recorded)), Leaves(Arr(live)))
    else if recorded != [] && kept == [] then PoolsAgreeUnder(p, path, recorded, live)
    else if HasObjects(recorded) || HasObjects(live) then KeysOf(live) <= KeysOf(recorded)
    else LeavesAddNothing(p, path, Leaves(Arr(recorded)), Leaves(Arr(kept)), Leaves(Arr(live)))
  }

  lemma {:induction false} NoObjectsNoKeys(rows: seq<Value>, prefix: Path, relaxed: set<Path>)
    requires !HasObjects(rows)
    ensures KeysOf(rows) == {} && MintedIdentities(rows, prefix, relaxed) == multiset{}
  {
    if rows != [] {
      assert rows[0] in rows && forall v <- rows[1..] :: v in rows;
      NoObjectsNoKeys(rows[1..], prefix, relaxed);
    }
  }

  lemma RowsHide(p: Policy, path: Path, recorded: seq<Value>, kept: seq<Value>, live: seq<Value>)
    requires Sublist(kept, live) && PoolsAgreeUnder(p, path, recorded, kept) && !Cut(p, path)
    requires (recorded != [] ==> kept != []) && (HasObjects(recorded) || HasObjects(live))
    ensures PoolsAgreeUnder(p, path, recorded, live) <==> KeysOf(live) <= KeysOf(recorded)
  {
    SomeAreAmongAll(kept, live);
    if HasObjects(recorded) {
      StillCovered(p, path, recorded, kept, live);
    } else {
      NoObjectsNoKeys(recorded, path, p.Relaxed());
    }
  }

  lemma StillCovered(p: Policy, path: Path, recorded: seq<Value>, kept: seq<Value>, live: seq<Value>)
    requires Sublist(kept, live) && RowsCovered(p, path, recorded, kept)
    ensures RowsCovered(p, path, recorded, live)
  {
    SublistMinted(kept, live, path, p.Relaxed());
  }

  lemma ShapesHide(recorded: seq<Value>, kept: seq<Value>, live: seq<Value>)
    requires Among(kept, live) && ShapesMeet(recorded, kept)
    ensures ShapesMeet(recorded, live) <==> kept != [] || ShapesMeet(recorded, live)
  {
    if recorded != [] && kept != [] {
      var v :| v in recorded && TypeFound(v, kept);
      assert TypeFound(v, live);
    }
  }

  /** Where the kept values agree, the live ones do exactly when they add nothing. */
  lemma PoolHides(p: Policy, path: Path, recorded: seq<Value>, kept: seq<Value>, live: seq<Value>)
    requires Sublist(kept, live)
    requires (recorded != [] && kept == []) || PoolsAgreeUnder(p, path, recorded, kept)
    ensures PoolsAgreeUnder(p, path, recorded, live) <==> AddsNothing(p, path, recorded, kept, live)
  {
    SomeAreAmongAll(kept, live);
    AmongLeaves(kept, live);
    if Cut(p, path) {
      if recorded != [] && kept == [] {
        assert Leaves(Arr([])) == [];
      } else {
        ShapesHide(Leaves(Arr(recorded)), Leaves(Arr(kept)), Leaves(Arr(live)));
      }
    } else if recorded != [] && kept == [] {
    } else if HasObjects(recorded) || HasObjects(live) {
      RowsHide(p, path, recorded, kept, live);
    } else {
      LeavesHide(p, path, Leaves(Arr(recorded)), Leaves(Arr(kept)), Leaves(Arr(live)));
    }
  }

  // ----- What a list can miss -----

  ghost predicate AddsNothingAt(
      p: Policy, prefix: Path, recorded: seq<Value>, kept: seq<Value>, live: seq<Value>, path: Path) {
    PoolReached(p, prefix, recorded, live, path) ==>
      AddsNothing(p, prefix + path, Pool(recorded, path), Pool(kept, path), Pool(live, path))
  }

  ghost predicate ListAddsNothing(p: Policy, prefix: Path, recorded: seq<Value>, kept: seq<Value>, live: seq<Value>) {
    forall path: Path :: AddsNothingAt(p, prefix, recorded, kept, live, path)
  }

  /** Along every path the whole list is compared at, the kept rows were compared too, unless none was kept. */
  lemma {:induction false} KeptWereCompared(
      p: Policy, prefix: Path, recorded: seq<Value>, kept: seq<Value>, live: seq<Value>, path: Path)
    requires ListsAgreeUnder(p, prefix, recorded, kept) && PoolReached(p, prefix, recorded, live, path)
    ensures (Pool(recorded, path) != [] && Pool(kept, path) == [])
      || PoolsAgreeUnder(p, prefix + path, Pool(recorded, path), Pool(kept, path))
    ensures Pool(recorded, path) != [] && Pool(kept, path) == [] ==> recorded != [] && kept == []
    decreases |path|
  {
    ListsAgreeByKey(p, prefix, recorded, kept);
    JoinPaths(prefix, "", []);
    EmptyPool(path);
    if path == [] {
    } else if recorded != [] && kept == [] {
      if Pool(recorded, path) == [] {
        EmptyListsAgree(p, prefix + path);
        ListsAgreeByKey(p, prefix + path, [], []);
      }
    } else {
      var key, rest := path[0], path[1..];
      JoinPaths(prefix, key, rest);
      assert path == [key] + rest;
      assert ColumnAgrees(p, prefix, recorded, kept, key);
      KeptWereCompared(p, prefix + [key], ValuesOf(recorded, key), ValuesOf(kept, key), ValuesOf(live, key), rest);
      KeptColumns(p, prefix, recorded, kept, key);
    }
  }

  /** A key of some recorded row is a key of some kept one. */
  lemma KeptColumns(p: Policy, path: Path, recorded: seq<Value>, kept: seq<Value>, key: string)
    requires PoolsAgreeUnder(p, path, recorded, kept) && PoolOpen(p, path, recorded, kept)
    ensures ValuesOf(recorded, key) != [] ==> ValuesOf(kept, key) != []
  {
    KeyHasARow(recorded, key);
    KeyHasARow(kept, key);
  }

  /** A list that agrees once rows are set aside agrees as a whole exactly when those rows add nothing. */
  lemma ListHides(p: Policy, prefix: Path, recorded: seq<Value>, kept: seq<Value>, live: seq<Value>)
    requires Sublist(kept, live) && ListsAgreeUnder(p, prefix, recorded, kept)
    ensures ListsAgreeUnder(p, prefix, recorded, live) <==> ListAddsNothing(p, prefix, recorded, kept, live)
  {
    forall path: Path
      ensures PoolsAgreeUnderAt(p, prefix, recorded, live, path) <==>
        AddsNothingAt(p, prefix, recorded, kept, live, path)
    {
      if PoolReached(p, prefix, recorded, live, path) {
        KeptWereCompared(p, prefix, recorded, kept, live, path);
        SublistPool(kept, live, path);
        PoolHides(p, prefix + path, Pool(recorded, path), Pool(kept, path), Pool(live, path));
      }
    }
  }

  // ----- What the walk of the pair can miss -----

  ghost predicate RowsAddNothing(p: Policy, key: string, recorded: Payload, live: Payload, kept: seq<Value>)
    requires RowsAt(recorded, Some(key)).Some? && RowsAt(live, Some(key)).Some?
  {
    if p.HasMove([key], ThresholdSide) then ReadingKept(p.honest[[key]].threshold, key, recorded, live)
    else ListAddsNothing(p, [key], recorded[key].items, kept, live[key].items)
  }

  lemma FieldHides(p: Policy, key: string, recorded: Payload, live: Payload, kept: seq<Value>)
    requires RowsAt(recorded, Some(key)).Some? && RowsAt(live, Some(key)).Some? && Sublist(kept, live[key].items)
    requires FieldAgrees(p, [], recorded, live[key := Arr(kept)], key)
    ensures FieldAgrees(p, [], recorded, live, key) <==> RowsAddNothing(p, key, recorded, live, kept)
  {
    JoinPaths([], key, []);
    assert [] + [key] == [key];
    if !p.HasMove([key], ThresholdSide) {
      AgreeAtALeaf(p, [key], recorded[key], live[key]);
      AgreeAtALeaf(p, [key], recorded[key], Arr(kept));
      ListNodes(p, [key], recorded[key].items, live[key].items);
      ListNodes(p, [key], recorded[key].items, kept);
      ListHides(p, [key], recorded[key].items, kept, live[key].items);
    }
  }

  lemma ListNodes(p: Policy, path: Path, canned: seq<Value>, live: seq<Value>)
    ensures NodesAgreeUnder(p, path, Arr(canned), Arr(live)) <==> ListsAgreeUnder(p, path, canned, live)
  {
    ListsAgreeByKey(p, path, canned, live);
  }

  lemma OtherFields(p: Policy, key: string, other: string, recorded: Payload, live: Payload, kept: seq<Value>)
    requires key in live && live[key].Arr? && other != key && other in recorded && other in live
    ensures FieldAgrees(p, [], recorded, live, other) <==> FieldAgrees(p, [], recorded, live[key := Arr(kept)], other)
  {
  }

  /** Setting live rows aside makes the walk of two payloads silent that would not have been exactly when
      those rows add something. */
  lemma SettingAsideHides(p: Policy, key: string, recorded: Payload, live: Payload, kept: seq<Value>)
    requires RowsAt(recorded, Some(key)).Some? && RowsAt(live, Some(key)).Some? && Sublist(kept, live[key].items)
    requires Walked(p, Obj(recorded), Obj(live[key := Arr(kept)]), [], false) == []
    ensures Walked(p, Obj(recorded), Obj(live), [], false) == [] <==> RowsAddNothing(p, key, recorded, live, kept)
  {
    var without := live[key := Arr(kept)];
    assert without.Keys == live.Keys;
    PayloadsDecide(p, recorded, live);
    PayloadsDecide(p, recorded, without);
    AgreeByKey(p, [], recorded, live);
    AgreeByKey(p, [], recorded, without);
    FieldHides(p, key, recorded, live, kept);
    forall k | k in recorded && k in live && k != key
      ensures FieldAgrees(p, [], recorded, live, k) <==> FieldAgrees(p, [], recorded, without, k)
    {
      OtherFields(p, key, k, recorded, live, kept);
    }
  }

  /** What setting raised rows aside hides from the walk, for every policy. */
  lemma RaisedRowsHideExactly(p: Policy, key: string, recorded: Payload, live: Payload, relaxed: set<Path>)
    requires RowsAt(recorded, Some(key)).Some? && RowsAt(live, Some(key)).Some?
    requires Walked(p, Obj(recorded), Obj(live[key := Arr(KeptRows(key, recorded, live, relaxed))]), [], false) == []
    ensures Walked(p, Obj(recorded), Obj(live), [], false) == []
      <==> RowsAddNothing(p, key, recorded, live, KeptRows(key, recorded, live, relaxed))
  {
    KeptAreLive(live[key].items, Known(recorded[key].items, key, relaxed), key, relaxed);
    SettingAsideHides(p, key, recorded, live, KeptRows(key, recorded, live, relaxed));
  }

  function KeptRows(key: string, recorded: Payload, live: Payload, relaxed: set<Path>): seq<Value>
    requires RowsAt(recorded, Some(key)).Some? && RowsAt(live, Some(key)).Some?
  {
    Kept(live[key].items, Known(recorded[key].items, key, relaxed), key, relaxed)
  }

  // ----- With identities and clocks relaxed only -----

  /** At and below this list the policy knows no rule but the one of minted ids, and cuts nothing. */
  ghost predicate OnlyMintedBelow(p: Policy, prefix: Path) {
    && (forall path <- p.shapeOnly :: !(prefix <= path))
    && (forall path <- p.honest :: prefix <= path ==> p.honest[path].rule == MintedId)
  }

  /** A field that only live rows carry, at this path below the list. */
  ghost predicate OnlyLiveField(p: Policy, prefix: Path, recorded: seq<Value>, live: seq<Value>, path: Path) {
    PoolReached(p, prefix, recorded, live, path) && !(KeysOf(Pool(live, path)) <= KeysOf(Pool(recorded, path)))
  }

  /** Then the one drift that setting rows aside can hide is a field that no recorded row carries. */
  lemma OnlyFieldsAreHidden(p: Policy, prefix: Path, recorded: seq<Value>, kept: seq<Value>, live: seq<Value>)
    requires Sublist(kept, live) && ListsAgreeUnder(p, prefix, recorded, kept)
    requires OnlyMintedBelow(p, prefix) && prefix !in p.volatile
    ensures ListsAgreeUnder(p, prefix, recorded, live) <==>
      forall path: Path :: !OnlyLiveField(p, prefix, recorded, live, path)
  {
    ListHides(p, prefix, recorded, kept, live);
    ListsAgreeByKey(p, prefix, recorded, kept);
    assert prefix + [] == prefix;
    forall path: Path
      ensures AddsNothingAt(p, prefix, recorded, kept, live, path) <==> !OnlyLiveField(p, prefix, recorded, live, path)
    {
      if PoolReached(p, prefix, recorded, live, path) {
        KeptWereCompared(p, prefix, recorded, kept, live, path);
        assert prefix <= prefix + path;
        KeysAlone(p, prefix + path, Pool(recorded, path), Pool(kept, path), Pool(live, path));
      }
    }
  }

  lemma KeysAlone(p: Policy, path: Path, recorded: seq<Value>, kept: seq<Value>, live: seq<Value>)
    requires path !in p.shapeOnly && (path in p.honest ==> p.honest[path].rule == MintedId)
    requires recorded != [] ==> kept != []
    ensures AddsNothing(p, path, recorded, kept, live) <==> KeysOf(live) <= KeysOf(recorded)
  {
    if !HasObjects(live) {
      NoObjectsNoKeys(live, path, {});
    }
  }

  // ----- A raised row that hides one -----

  const ROWS := "rows"

  function Row(id: string): Value {
    Obj(map["id" := Str(id)])
  }

  function RowWith(id: string, extra: Value): Value {
    Obj(map["id" := Str(id), "extra" := extra])
  }

  function Answer(rows: seq<Value>): Payload {
    map[ROWS := Arr(rows)]
  }

  /** Such a row: with the ids relaxed in whatever way, by the rule of minted ids or as volatile, a raised row's
      new field is drift, and is gone once the row is set aside. */
  lemma ARaisedFieldIsHidden(p: Policy, a: string, b: string, extra: Value)
    requires p.Relaxed() == {[ROWS, "id"]} && IsRandomUuid(a) && IsRandomUuid(b)
    ensures KeptRows(ROWS, Answer([Row(a)]), Answer([Row(a), RowWith(b, extra)]), p.Relaxed()) == [Row(a)]
    ensures Walked(p, Obj(Answer([Row(a)])), Obj(Answer([Row(a)])), [], false) == []
    ensures Walked(p, Obj(Answer([Row(a)])), Obj(Answer([Row(a), RowWith(b, extra)])), [], false) != []
  {
    assert |[ROWS]| != |[ROWS, "id"]|;
    OneRowIsKept(a, b, extra, p.Relaxed());
    ExtraIsAdded(p, a, b, extra);
    OneList([Row(a)], [Row(a), RowWith(b, extra)]);
    HiddenDrift(p, ROWS, Answer([Row(a)]), Answer([Row(a), RowWith(b, extra)]), p.Relaxed());
  }

  lemma HiddenDrift(p: Policy, key: string, recorded: Payload, live: Payload, relaxed: set<Path>)
    requires RowsAt(recorded, Some(key)).Some? && RowsAt(live, Some(key)).Some?
    requires live[key := Arr(KeptRows(key, recorded, live, relaxed))] == recorded
    requires !RowsAddNothing(p, key, recorded, live, KeptRows(key, recorded, live, relaxed))
    ensures Walked(p, Obj(recorded), Obj(recorded), [], false) == []
      && Walked(p, Obj(recorded), Obj(live), [], false) != []
  {
    SelfIsClean(p, Obj(recorded), [], false);
    RaisedRowsHideExactly(p, key, recorded, live, relaxed);
  }

  lemma OneList(recorded: seq<Value>, live: seq<Value>)
    ensures Answer(live)[ROWS := Arr(recorded)] == Answer(recorded)
    ensures RowsAt(Answer(live), Some(ROWS)).Some?
  {
  }

  lemma ExtraIsAdded(p: Policy, a: string, b: string, extra: Value)
    requires [ROWS] !in p.Relaxed()
    ensures !RowsAddNothing(p, ROWS, Answer([Row(a)]), Answer([Row(a), RowWith(b, extra)]), [Row(a)])
  {
    var rows := [Row(a), RowWith(b, extra)];
    ExtraIsNew(a, b, extra);
    assert [ROWS] + [] == [ROWS] && !Cut(p, [ROWS]) && [ROWS] !in p.Moves();
    assert !AddsNothing(p, [ROWS] + [], Pool([Row(a)], []), Pool([Row(a)], []), Pool(rows, []));
    assert !AddsNothingAt(p, [ROWS], [Row(a)], [Row(a)], rows, []);
  }

  lemma ExtraIsNew(a: string, b: string, extra: Value)
    ensures var rows := [Row(a), RowWith(b, extra)];
      "extra" in KeysOf(rows) && "extra" !in KeysOf([Row(a)]) && HasObjects([Row(a)])
  {
    var rows := [Row(a), RowWith(b, extra)];
    KeyHasARow(rows, "extra");
    KeyHasARow([Row(a)], "extra");
    assert rows[1] in rows && [Row(a)][0] in [Row(a)];
  }

  lemma RaisedByItsField(a: string, b: string, extra: Value, relaxed: set<Path>)
    requires relaxed == {[ROWS, "id"]} && IsRandomUuid(b)
    ensures Raised(RowWith(b, extra), Known([Row(a)], ROWS, relaxed), ROWS, relaxed)
  {
    assert ([ROWS] + ["extra"])[1][0] == 'e' && [ROWS, "id"][1][0] == 'i';
    assert "extra" in Identity(RowWith(b, extra), [ROWS], relaxed).fields;
    assert "extra" !in Identity(Row(a), [ROWS], relaxed).fields;
  }

  lemma OneRowIsKept(a: string, b: string, extra: Value, relaxed: set<Path>)
    requires relaxed == {[ROWS, "id"]} && IsRandomUuid(a) && IsRandomUuid(b)
    ensures KeptRows(ROWS, Answer([Row(a)]), Answer([Row(a), RowWith(b, extra)]), relaxed) == [Row(a)]
  {
    var known := Known([Row(a)], ROWS, relaxed);
    var rows := [Row(a), RowWith(b, extra)];
    RaisedByItsField(a, b, extra, relaxed);
    OwnRowsAreKnown([Row(a)], ROWS, relaxed);
    assert Row(a) in [Row(a)];
    assert rows[..1] == [Row(a)] && rows[..1][..0] == [];
    assert Kept(rows[..1], known, ROWS, relaxed) == Kept([], known, ROWS, relaxed) + [Row(a)];
  }
}
