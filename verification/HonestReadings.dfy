/** `observed_pair` and `compare` of evals/fixture_drift.py together, over a world and a later one that grew
    out of it honestly. */
module HonestReadings {
  import opened Json
  import opened Wrappers
  import opened WorldComparison
  import opened MovementRules
  import opened WorldAgreement
  import opened NewestPage
  import opened PageEvolution
  import opened ObservedPair
  import opened SetAside

  // ----- Rows that stand for each other -----

  /** The same keys all the way down, and the same values but for scalars at relaxed paths; where the node is
      cut to its shape, a scalar keeps its type. */
  ghost predicate Kin(p: Policy, a: Value, b: Value, path: Path)
    decreases a
  {
    || a == b
    || (path in p.Relaxed() && Scalar(a) && Scalar(b) && (path in p.shapeOnly ==> a.Null? || TypeOf(a) == TypeOf(b)))
    || (a.Obj? && b.Obj? && a.fields.Keys == b.fields.Keys
        && forall k <- a.fields :: k in b.fields && Kin(p, a.fields[k], b.fields[k], path + [k]))
  }

  /** Kin rows have one identity, under whatever is relaxed at least as far. */
  lemma {:induction false} KinHaveOneIdentity(p: Policy, a: Value, b: Value, path: Path, relaxed: set<Path>)
    requires Kin(p, a, b, path) && (path in relaxed ==> a.Obj?) && p.Relaxed() <= relaxed
    ensures Identity(a, path, relaxed) == Identity(b, path, relaxed)
    decreases a
  {
    if a != b {
      var x, y := Identity(a, path, relaxed).fields, Identity(b, path, relaxed).fields;
      forall k | k in x ensures k in y && x[k] == y[k] {
        KinHaveOneIdentity(p, a.fields[k], b.fields[k], path + [k], relaxed);
      }
      assert x.Keys == y.Keys;
    }
  }

  /** Every recorded value has a live one standing for it. */
  ghost predicate Stands(p: Policy, recorded: seq<Value>, live: seq<Value>, path: Path) {
    forall v <- recorded :: HasKin(p, v, live, path)
  }

  ghost predicate HasKin(p: Policy, v: Value, live: seq<Value>, path: Path) {
    exists w <- live :: Kin(p, v, w, path)
  }

  lemma {:induction false} FieldsAreValues(rows: seq<Value>, key: string, row: Value)
    requires row in rows && row.Obj? && key in row.fields
    ensures row.fields[key] in ValuesOf(rows, key)
  {
    ValuesOfFirst(rows, key);
    if row != rows[0] {
      FieldsAreValues(rows[1..], key, row);
    }
  }

  lemma StandsBelow(p: Policy, recorded: seq<Value>, live: seq<Value>, path: Path, key: string)
    requires Stands(p, recorded, live, path)
    ensures Stands(p, ValuesOf(recorded, key), ValuesOf(live, key), path + [key])
  {
    forall v | v in ValuesOf(recorded, key) ensures HasKin(p, v, ValuesOf(live, key), path + [key]) {
      ValuesAreFields(recorded, key, v);
      var row :| row in recorded && row.Obj? && key in row.fields && row.fields[key] == v;
      assert HasKin(p, row, live, path);
      var twin :| twin in live && Kin(p, row, twin, path);
      FieldsAreValues(live, key, twin);
      assert Kin(p, v, twin.fields[key], path + [key]);
    }
  }

  lemma {:induction false} StandsInPools(p: Policy, recorded: seq<Value>, live: seq<Value>, prefix: Path, path: Path)
    requires Stands(p, recorded, live, prefix)
    ensures Stands(p, Pool(recorded, path), Pool(live, path), prefix + path)
    decreases |path|
  {
    if path == [] {
      assert prefix + [] == prefix;
    } else {
      StandsBelow(p, recorded, live, prefix, path[0]);
      StandsInPools(p, ValuesOf(recorded, path[0]), ValuesOf(live, path[0]), prefix + [path[0]], path[1..]);
      JoinPaths(prefix, path[0], path[1..]);
      assert path == [path[0]] + path[1..];
    }
  }

  // ----- The walk over rows that stand for each other -----

  lemma StandingKeys(p: Policy, recorded: seq<Value>, live: seq<Value>, path: Path)
    requires Stands(p, recorded, live, path)
    ensures KeysOf(recorded) <= KeysOf(live)
    ensures HasObjects(recorded) ==> HasObjects(live)
    ensures recorded != [] ==> live != []
  {
    forall k | k in KeysOf(recorded) ensures k in KeysOf(live) {
      KeyHasARow(recorded, k);
      KeyHasARow(live, k);
      var row :| row in recorded && row.Obj? && k in row.fields;
      assert HasKin(p, row, live, path);
    }
    if v :| v in recorded && v.Obj? {
      assert HasKin(p, v, live, path);
    }
    if recorded != [] {
      assert HasKin(p, recorded[0], live, path);
    }
  }

  lemma StandingLeaves(p: Policy, recorded: seq<Value>, live: seq<Value>, path: Path)
    requires Stands(p, recorded, live, path) && path !in p.Relaxed() && !HasObjects(recorded)
    ensures forall v <- Leaves(Arr(recorded)) :: Held(v, Leaves(Arr(live)))
  {
    forall v | v in recorded ensures v in live {
      assert HasKin(p, v, live, path);
    }
    AmongLeaves(recorded, live);
    OwnReachable(Leaves(Arr(recorded)));
    MoreToReach(Leaves(Arr(recorded)), Leaves(Arr(recorded)), Leaves(Arr(live)));
  }

  lemma LeafOf(rows: seq<Value>, v: Value)
    ensures v in Leaves(Arr(rows)) <==> !v.Null? && exists w <- rows :: v in Flatten(w)
  {
    NonNullMember(FlattenAll(rows), v);
    FlattenedMember(rows, v);
  }

  /** At a cut path, each recorded leaf has a live one of its type. */
  lemma StandingShapes(p: Policy, recorded: seq<Value>, live: seq<Value>, path: Path)
    requires Stands(p, recorded, live, path) && path in p.shapeOnly
    ensures ShapesMeet(Leaves(Arr(recorded)), Leaves(Arr(live)))
  {
    var values, domain := Leaves(Arr(recorded)), Leaves(Arr(live));
    if values != [] {
      var leaf := values[0];
      LeafOf(recorded, leaf);
      var v :| v in recorded && leaf in Flatten(v);
      assert HasKin(p, v, live, path);
      var w :| w in live && Kin(p, v, w, path);
      var twin := if v == w then leaf else w;
      LeafOf(live, twin);
      assert twin in domain && TypeOf(twin) == TypeOf(leaf);
      assert TypeFound(leaf, domain);
    }
  }

  /** What the live values must not bring: a key of their own, too few rows of a minted identity, or values
      against the rule of a moved field. Below a cut nothing is looked at. */
  ghost predicate BringsNothing(p: Policy, path: Path, recorded: seq<Value>, live: seq<Value>) {
    || Cut(p, path)
    || (KeysOf(live) <= KeysOf(recorded)
        && if HasObjects(live) then RowsCovered(p, path, recorded, live)
          else LeavesRuled(p, path, Leaves(Arr(recorded)), Leaves(Arr(live))))
  }

  ghost predicate LeavesRuled(p: Policy, path: Path, values: seq<Value>, domain: seq<Value>) {
    path in p.volatile || path in p.unbounded || path !in p.honest || LeafRuleKept(p.honest[path].rule, values, domain)
  }

  lemma StandingPool(p: Policy, path: Path, recorded: seq<Value>, live: seq<Value>)
    requires Stands(p, recorded, live, path) && path != []
    ensures PoolsAgreeUnder(p, path, recorded, live) <==> BringsNothing(p, path, recorded, live)
  {
    StandingKeys(p, recorded, live, path);
    if Cut(p, path) {
      StandingShapes(p, recorded, live, path);
    } else if !HasObjects(live) {
      NoObjectsNoKeys(live, path, {});
      if path !in p.Relaxed() {
        StandingLeaves(p, recorded, live, path);
      }
    }
  }

  ghost predicate BringsNothingAt(p: Policy, prefix: Path, recorded: seq<Value>, live: seq<Value>, path: Path) {
    PoolReached(p, prefix, recorded, live, path) ==>
      BringsNothing(p, prefix + path, Pool(recorded, path), Pool(live, path))
  }

  ghost predicate ListBringsNothing(p: Policy, prefix: Path, recorded: seq<Value>, live: seq<Value>) {
    forall path: Path :: BringsNothingAt(p, prefix, recorded, live, path)
  }

  /** Rows that stand for the recorded ones are silent exactly when the live rows bring nothing. */
  lemma StandingLists(p: Policy, prefix: Path, recorded: seq<Value>, live: seq<Value>)
    requires Stands(p, recorded, live, prefix) && prefix != []
    ensures ListsAgreeUnder(p, prefix, recorded, live) <==> ListBringsNothing(p, prefix, recorded, live)
  {
    forall path: Path
      ensures PoolsAgreeUnderAt(p, prefix, recorded, live, path) <==> BringsNothingAt(p, prefix, recorded, live, path)
    {
      StandsInPools(p, recorded, live, prefix, path);
      StandingPool(p, prefix + path, Pool(recorded, path), Pool(live, path));
    }
  }

  // ----- Both readings of the page -----

  /** The world grew, the page relaxes all that the walk does, and each row is carried to a kin of itself. */
  ghost predicate GrownInKind(e: Evolution, p: Policy) {
    && e.Grown() && p.Relaxed() <= e.relaxed
    && forall i :: 0 <= i < |e.before| ==> Kin(p, e.before[i], e.after[e.place[i]], [e.key])
  }

  /** Kin rows keep their identities, so such a growth is an honest evolution. */
  lemma GrownInKindIsHonest(e: Evolution, p: Policy)
    requires GrownInKind(e, p)
    ensures e.Honest()
  {
    forall i | 0 <= i < |e.before| ensures e.SameIdentity(i) {
      assert e.Carried(i) && Kin(p, e.before[i], e.after[e.place[i]], [e.key]);
      if Stable(e.before[i], e.rowId).Some? {
        KinHaveOneIdentity(p, e.before[i], e.after[e.place[i]], [e.key], e.relaxed);
      }
    }
  }

  function Reading(base: Payload, key: string, rows: seq<Value>): Payload {
    base[key := Arr(rows)]
  }

  lemma {:induction false} LeftRow(rows: seq<Value>, gone: set<nat>, row: Value)
    requires row in Without(rows, gone)
    ensures exists i: nat :: i < |rows| && i !in gone && rows[i] == row
  {
    var init := rows[..|rows| - 1];
    if row in Without(init, gone) {
      LeftRow(init, gone, row);
      var i: nat :| i < |init| && i !in gone && init[i] == row;
      assert rows[i] == row;
    } else {
      assert |rows| - 1 !in gone && rows[|rows| - 1] == row;
    }
  }

  lemma {:induction false} NothingGone(rows: seq<Value>)
    ensures Without(rows, {}) == rows
  {
    if rows != [] {
      NothingGone(rows[..|rows| - 1]);
    }
  }

  /** Every row still compared has its own row on the live page. */
  lemma LeftRowsStand(e: Evolution, p: Policy, limit: nat, page: Page)
    requires GrownInKind(e, p) && e.Honest() && DistinctTimes(e.after) && e.Read(limit).IsResult(page)
    ensures Stands(p, Without(Newest(e.before, limit), OffThePage(page)), Newest(e.after, limit), [e.key])
  {
    var rows, live := Newest(e.before, limit), Newest(e.after, limit);
    forall row | row in Without(rows, OffThePage(page)) ensures HasKin(p, row, live, [e.key]) {
      LeftRow(rows, OffThePage(page), row);
      var i: nat :| i < |rows| && i !in OffThePage(page) && rows[i] == row;
      SetAsideExactly(e, limit, page, i);
      assert live[e.place[i]] == e.after[e.place[i]] && live[e.place[i]] in live;
      assert Kin(p, e.before[i], e.after[e.place[i]], [e.key]);
    }
  }

  lemma ReadAgain(base: Payload, key: string, rows: seq<Value>, others: seq<Value>)
    ensures Reading(base, key, rows)[key := Arr(others)] == Reading(base, key, others)
    ensures RowsAt(Reading(base, key, rows), Some(key)) == Some(rows)
  {
  }

  /** The rows `observed_pair` hands on to the walk: what is left, and the live page unless nothing is. */
  lemma PairRows(
      pair: Pair, listing: Listing, limit: nat, base: Payload, rows: seq<Value>, live: seq<Value>, relaxed: set<Path>)
    requires listing.raised == None && listing.page.Some?
    requires Observes(
      pair, listing, Some(limit), Reading(base, listing.page.value, rows), Reading(base, listing.page.value, live),
      relaxed)
    ensures pair.page.Some?
      && Pages(rows, live, listing.page.value, listing.rowId, limit, relaxed).IsResult(pair.page.value)
    ensures var left := Without(rows, OffThePage(pair.page.value));
      && pair.recorded == Reading(base, listing.page.value, left)
      && pair.live ==
        Reading(base, listing.page.value, if left == [] && OffThePage(pair.page.value) != {} then [] else live)
  {
    var key := listing.page.value;
    var recorded, whole := Reading(base, key, rows), Reading(base, key, live);
    ReadAgain(base, key, rows, []);
    ReadAgain(base, key, live, []);
    var kept :| RaisedAside(kept, pair.raised, listing, recorded, whole, relaxed)
      && PageAside(pair, kept, listing, Some(limit), recorded, whole, relaxed);
    assert kept == whole;
    ReadAgain(base, key, rows, Without(rows, OffThePage(pair.page.value)));
    NothingGone(rows);
  }

  /** Two payloads that differ at most in one list that both hold. */
  predicate DifferInOneList(recorded: Payload, live: Payload, key: string) {
    && RowsAt(recorded, Some(key)).Some? && RowsAt(live, Some(key)).Some?
    && recorded.Keys == live.Keys && forall k <- recorded :: k != key ==> recorded[k] == live[k]
  }

  lemma SameFieldAgrees(p: Policy, recorded: Payload, live: Payload, key: string, other: string)
    requires DifferInOneList(recorded, live, key) && other in recorded && other != key
    ensures FieldAgrees(p, [], recorded, live, other)
  {
    var at := [Key(other)];
    ChildPath([], other);
    assert [] + [Key(other)] == at && PolicyPath(at) == [] + [other];
    SelfIsClean(p, recorded[other], at, false);
    WalkDecides(p, recorded[other], live[other], at);
  }

  /** The list's own field: read against a threshold, or walked as a list. */
  ghost predicate ListFieldAgrees(p: Policy, recorded: Payload, live: Payload, key: string)
    requires DifferInOneList(recorded, live, key)
  {
    if p.HasMove([key], ThresholdSide) then ReadingKept(p.honest[[key]].threshold, key, recorded, live)
    else ListsAgreeUnder(p, [key], recorded[key].items, live[key].items)
  }

  lemma ListFieldDecides(p: Policy, recorded: Payload, live: Payload, key: string)
    requires DifferInOneList(recorded, live, key)
    ensures FieldAgrees(p, [], recorded, live, key) <==> ListFieldAgrees(p, recorded, live, key)
  {
    assert [] + [key] == [key];
    AgreeAtALeaf(p, [key], recorded[key], live[key]);
    ListNodes(p, [key], recorded[key].items, live[key].items);
  }

  /** Such payloads walk silently exactly when that one field agrees. */
  lemma PayloadsOfOneList(p: Policy, recorded: Payload, live: Payload, key: string)
    requires DifferInOneList(recorded, live, key)
    ensures Walked(p, Obj(recorded), Obj(live), [], false) == [] <==> ListFieldAgrees(p, recorded, live, key)
  {
    PayloadsDecide(p, recorded, live);
    AgreeByKey(p, [], recorded, live);
    ListFieldDecides(p, recorded, live, key);
    forall k | k in recorded && k != key ensures FieldAgrees(p, [], recorded, live, k) {
      SameFieldAgrees(p, recorded, live, key, k);
    }
  }

  /** Both payloads hold the list, and their walk is silent exactly when the live rows of it bring nothing. */
  ghost predicate SilentExactly(p: Policy, key: string, recorded: Payload, live: Payload) {
    && RowsAt(recorded, Some(key)).Some? && RowsAt(live, Some(key)).Some?
    && (Walked(p, Obj(recorded), Obj(live), [], false) == [] <==>
          if p.HasMove([key], ThresholdSide) then ReadingKept(p.honest[[key]].threshold, key, recorded, live)
          else ListBringsNothing(p, [key], recorded[key].items, live[key].items))
  }

  /** The end of the chain, under any policy: read a page, let the world grow with its rows kept in kind, and
      read it again. The page comparison reports nothing, and the walk over what it leaves is silent exactly
      when the rows now on the page bring nothing. */
  lemma ReadAgainIsQuietExactly(
      pair: Pair, listing: Listing, limit: nat, base: Payload, e: Evolution, p: Policy)
    requires GrownInKind(e, p) && DistinctTimes(e.after) && listing == Listing(None, Some(e.key), e.rowId)
    requires Observes(
      pair, listing, Some(limit), Reading(base, e.key, Newest(e.before, limit)),
      Reading(base, e.key, Newest(e.after, limit)), e.relaxed)
    ensures pair.Disagreements() == [] && SilentExactly(p, e.key, pair.recorded, pair.live)
  {
    GrownInKindIsHonest(e, p);
    PairRows(pair, listing, limit, base, Newest(e.before, limit), Newest(e.after, limit), e.relaxed);
    HonestEvolutionIsQuiet(e, limit, pair.page.value);
    WalkAgainIsQuietExactly(base, e, limit, pair.page.value, p);
  }

  lemma WalkAgainIsQuietExactly(base: Payload, e: Evolution, limit: nat, page: Page, p: Policy)
    requires GrownInKind(e, p) && e.Honest() && DistinctTimes(e.after) && e.Read(limit).IsResult(page)
    ensures var left := Without(Newest(e.before, limit), OffThePage(page));
      SilentExactly(p, e.key, Reading(base, e.key, left), Reading(base, e.key, Shown(e, limit, page)))
  {
    LeftRowsStand(e, p, limit, page);
    StandingReadings(p, base, e.key, Without(Newest(e.before, limit), OffThePage(page)), Shown(e, limit, page));
  }

  lemma StandingReadings(p: Policy, base: Payload, key: string, left: seq<Value>, shown: seq<Value>)
    requires Stands(p, left, shown, [key])
    ensures SilentExactly(p, key, Reading(base, key, left), Reading(base, key, shown))
  {
    ReadAgain(base, key, left, shown);
    ReadAgain(base, key, shown, left);
    PayloadsOfOneList(p, Reading(base, key, left), Reading(base, key, shown), key);
    StandingLists(p, [key], left, shown);
  }

  /** The live rows the walk is given: all of them, or none when every recorded row left the page. */
  function Shown(e: Evolution, limit: nat, page: Page): seq<Value> {
    if Without(Newest(e.before, limit), OffThePage(page)) == [] && OffThePage(page) != {} then []
      else Newest(e.after, limit)
  }

  /** A row with these keys and no object in it. */
  predicate FlatRow(row: Value, keys: set<string>) {
    row.Obj? && row.fields.Keys == keys && forall k <- row.fields :: !row.fields[k].Obj?
  }

  lemma {:induction false} FlatKeys(rows: seq<Value>, keys: set<string>)
    requires forall row <- rows :: FlatRow(row, keys)
    ensures KeysOf(rows) == if rows == [] then {} else keys
  {
    if rows != [] {
      assert FlatRow(rows[0], keys);
      assert forall row <- rows[1..] :: row in rows;
      FlatKeys(rows[1..], keys);
    }
  }

  lemma {:induction false} FlatPools(rows: seq<Value>, keys: set<string>, path: Path)
    requires path != [] && forall row <- rows :: FlatRow(row, keys)
    ensures KeysOf(Pool(rows, path)) == {}
  {
    var column := ValuesOf(rows, path[0]);
    forall v | v in column ensures !v.Obj? {
      ValuesAreFields(rows, path[0], v);
    }
    NoObjectsNoKeys(column, [], {});
    if path[1..] != [] {
      NoObjectsNoValues(column, path[1]);
      assert path[1..][0] == path[1];
      EmptyPool(path[1..][1..]);
    }
  }

  lemma {:induction false} LeftRowsAre(rows: seq<Value>, gone: set<nat>)
    ensures forall row <- Without(rows, gone) :: row in rows
  {
    forall row | row in Without(rows, gone) ensures row in rows {
      LeftRow(rows, gone, row);
    }
  }

  // ----- Where no rule reads the list -----

  /** No movement rule is in force at or below this list. */
  ghost predicate NoRuleBelow(p: Policy, prefix: Path) {
    forall path <- p.honest :: !(prefix <= path)
  }

  /** A field that only live rows carry, at a path the policy does not cut. */
  ghost predicate NewField(p: Policy, prefix: Path, recorded: seq<Value>, live: seq<Value>, path: Path) {
    OnlyLiveField(p, prefix, recorded, live, path) && !Cut(p, prefix + path)
  }

  /** Then a new field is all that live rows can bring. */
  lemma OnlyFieldsAreBrought(p: Policy, prefix: Path, recorded: seq<Value>, live: seq<Value>)
    requires NoRuleBelow(p, prefix)
    ensures ListBringsNothing(p, prefix, recorded, live) <==>
      forall path: Path :: !NewField(p, prefix, recorded, live, path)
  {
    forall path: Path
      ensures BringsNothingAt(p, prefix, recorded, live, path) <==> !NewField(p, prefix, recorded, live, path)
    {
      assert prefix <= prefix + path && prefix <= prefix + path + ["id"];
    }
  }

  /** In particular, rows of one flat shape on a page that held a row: read again, they report no drift. */
  lemma ReadAgainIsQuiet(
      pair: Pair, listing: Listing, limit: nat, base: Payload, e: Evolution, p: Policy, keys: set<string>)
    requires GrownInKind(e, p) && DistinctTimes(e.after) && listing == Listing(None, Some(e.key), e.rowId)
    requires NoRuleBelow(p, [e.key]) && Newest(e.before, limit) != []
    requires (forall row <- e.before :: FlatRow(row, keys)) && forall row <- e.after :: FlatRow(row, keys)
    requires Observes(
      pair, listing, Some(limit), Reading(base, e.key, Newest(e.before, limit)),
      Reading(base, e.key, Newest(e.after, limit)), e.relaxed)
    ensures pair.Disagreements() == [] && Walked(p, Obj(pair.recorded), Obj(pair.live), [], false) == []
  {
    var rows, live := Newest(e.before, limit), Newest(e.after, limit);
    ReadAgainIsQuietExactly(pair, listing, limit, base, e, p);
    PairRows(pair, listing, limit, base, rows, live, e.relaxed);
    var left, shown := pair.recorded[e.key].items, pair.live[e.key].items;
    NothingGone(rows);
    LeftRowsAre(rows, OffThePage(pair.page.value));
    FlatRowsBringNoField(p, [e.key], left, shown, keys);
    OnlyFieldsAreBrought(p, [e.key], left, shown);
  }

  lemma FlatRowsBringNoField(p: Policy, prefix: Path, recorded: seq<Value>, live: seq<Value>, keys: set<string>)
    requires (forall row <- recorded :: FlatRow(row, keys)) && forall row <- live :: FlatRow(row, keys)
    requires recorded != [] || live == []
    ensures forall path: Path :: !NewField(p, prefix, recorded, live, path)
  {
    FlatKeys(recorded, keys);
    FlatKeys(live, keys);
    forall path: Path ensures !NewField(p, prefix, recorded, live, path) {
      if path != [] {
        FlatPools(live, keys, path);
      }
    }
  }
}
