/** Counting gaps over many runs, world by world and all together: evals/oracle_gap.py. */
module OracleGap {
  import opened Wrappers
  import opened CandidateMetrics
  import opened Filtering
  import opened Sorting
  import Texts

  type Counted = Option<int>

  /** What is kept of a run: its two terms and their difference, for each k asked about. */
  datatype RunRow = RunRow(
    archive: string, scenario: string, recording: string, world: string,
    passHit: map<int, Hit>, selectedHit: map<int, Hit>, gap: map<int, Counted>, decision: string)
  {
    function Pass(k: int): Hit {
      if k in passHit then passHit[k] else None
    }

    function Selected(k: int): Hit {
      if k in selectedHit then selectedHit[k] else None
    }

    function Gap(k: int): Counted {
      if k in gap then gap[k] else None
    }
  }

  /** `run_row`: every k scored off the run's own steps. */
  function RowOf(
      archive: string, scenario: string, recording: string, world: WorldKey, steps: seq<Step>, expected: set<string>,
      ks: set<int>)
    : Result<RunRow, GapError>
  {
    if exists k <- ks :: OracleGapAtK(steps, expected, k, world, None).Err? then Err(Impossible)
    else
      var step := DecidingStep(steps);
      Ok(RunRow(
        archive, scenario, recording, world.scenario + "@" + world.mode + ":" + world.instance,
        map k | k in ks :: PassAtK(steps, expected, k),
        map k | k in ks :: SelectedAtK(steps, expected, k),
        map k | k in ks :: OracleGapAtK(steps, expected, k, world, None).value.gap,
        if step.None? || step.value.selection.None? then "" else step.value.selection.value.decision))
  }

  /** What the two terms and the gap of one row have to do with each other. */
  ghost predicate Coherent(row: RunRow) {
    && row.passHit.Keys == row.selectedHit.Keys == row.gap.Keys
    && (forall k :: row.Gap(k).Some? <==> row.Selected(k).Some?)
    && (forall k :: row.Gap(k).Some? ==> CoherentAt(row, k))
    && (forall k, l :: k in row.gap && l in row.gap ==> row.Selected(k).Some? == row.Selected(l).Some?)
    && forall k, l :: k in row.gap && l in row.gap && k <= l ==> HitsKept(row, k, l)
  }

  /** What is a hit at k is one at a larger k. */
  predicate HitsKept(row: RunRow, k: int, larger: int) {
    && (row.Pass(k) == Some(true) ==> row.Pass(larger) == Some(true))
    && (row.Selected(k) == Some(true) ==> row.Selected(larger) == Some(true))
  }

  ghost predicate CoherentAt(row: RunRow, k: int) {
    && row.Pass(k).Some? && row.Selected(k).Some? && row.Gap(k).Some?
    && (row.Selected(k).value ==> row.Pass(k).value)
    && row.Gap(k).value == ToInt(row.Pass(k).value) - ToInt(row.Selected(k).value)
    && (row.Selected(k).value ==> row.decision == "select")
  }

  /** Every run can be scored, and what is scored is coherent. */
  lemma RowsAreCoherent(
      archive: string, scenario: string, recording: string, world: WorldKey, steps: seq<Step>, expected: set<string>,
      ks: set<int>)
    ensures var row := RowOf(archive, scenario, recording, world, steps, expected, ks);
      row.Ok? && Coherent(row.value) && row.value.gap.Keys == ks
    ensures var row := RowOf(archive, scenario, recording, world, steps, expected, ks);
      forall k <- ks ::
        row.value.Pass(k) == PassAtK(steps, expected, k) && row.value.Selected(k) == SelectedAtK(steps, expected, k)
  {
    forall k | k in ks ensures OracleGapAtK(steps, expected, k, world, None).Ok? {
      GapIsAMissedAnswer(steps, expected, k, world, None);
    }
    var row := RowOf(archive, scenario, recording, world, steps, expected, ks).value;
    forall k ensures row.Gap(k).Some? <==> row.Selected(k).Some? {
      if k in ks { RowAt(row, steps, expected, k, world); }
    }
    forall k | row.Gap(k).Some? ensures CoherentAt(row, k) {
      RowAt(row, steps, expected, k, world);
    }
    forall k, l | k in ks && l in ks
      ensures row.Selected(k).Some? == row.Selected(l).Some?
      ensures k <= l ==> HitsKept(row, k, l)
    {
      if k <= l { HitsLast(steps, expected, k, l); } else { HitsLast(steps, expected, l, k); }
    }
  }

  /** A row's world is told apart by its text where no scenario holds an `@` and no mode a colon. */
  lemma WorldTextTellsApart(
      archive: string, a: WorldKey, b: WorldKey, steps: seq<Step>, expected: set<string>, ks: set<int>)
    requires '@' !in a.scenario && '@' !in b.scenario && ':' !in a.mode && ':' !in b.mode
    requires RowOf(archive, a.scenario, "", a, steps, expected, ks).Ok?
    requires RowOf(archive, b.scenario, "", b, steps, expected, ks).Ok?
    ensures var x, y := RowOf(archive, a.scenario, "", a, steps, expected, ks).value,
        RowOf(archive, b.scenario, "", b, steps, expected, ks).value;
      x.world == y.world <==> a == b
  {
    var x, y := a.mode + ":" + a.instance, b.mode + ":" + b.instance;
    assert a.scenario + "@" + a.mode + ":" + a.instance == a.scenario + "@" + x;
    assert b.scenario + "@" + b.mode + ":" + b.instance == b.scenario + "@" + y;
    if a.scenario + "@" + x == b.scenario + "@" + y {
      Texts.CutAtTheFirst(a.scenario, x, b.scenario, y, '@');
      Texts.CutAtTheFirst(a.mode, a.instance, b.mode, b.instance, ':');
    }
  }

  lemma RowAt(row: RunRow, steps: seq<Step>, expected: set<string>, k: int, world: WorldKey)
    requires OracleGapAtK(steps, expected, k, world, None).Ok?
      && row.Gap(k) == OracleGapAtK(steps, expected, k, world, None).value.gap
    requires row.Pass(k) == PassAtK(steps, expected, k) && row.Selected(k) == SelectedAtK(steps, expected, k)
    requires row.decision == var step := DecidingStep(steps);
      if step.None? || step.value.selection.None? then "" else step.value.selection.value.decision
    ensures row.Gap(k).Some? <==> row.Selected(k).Some?
    ensures row.Gap(k).Some? ==> CoherentAt(row, k)
  {
    GapIsAMissedAnswer(steps, expected, k, world, None);
    SelectedWasAvailable(steps, expected, k);
  }

  // ----- Counting at one k -----

  datatype Counts = Counts(n: int, pass: int, selected: int, gap: int)

  function Add(a: Counts, b: Counts): Counts {
    Counts(a.n + b.n, a.pass + b.pass, a.selected + b.selected, a.gap + b.gap)
  }

  const ZERO := Counts(0, 0, 0, 0)

  function CountsOf(row: RunRow, k: int): Counts {
    if row.Gap(k).None? then ZERO
    else Counts(1, ToInt(row.Pass(k) == Some(true)), ToInt(row.Selected(k) == Some(true)), row.Gap(k).value)
  }

  /** `at_k`, as counts. */
  function AtK(rows: seq<RunRow>, k: int): Counts {
    if rows == [] then ZERO else Add(AtK(rows[..|rows| - 1], k), CountsOf(rows[|rows| - 1], k))
  }

  ghost predicate AllCoherent(rows: seq<RunRow>) {
    forall row <- rows :: Coherent(row)
  }

  lemma {:induction false} GapIsTheDifference(rows: seq<RunRow>, k: int)
    requires AllCoherent(rows)
    ensures var at := AtK(rows, k);
      at.gap == at.pass - at.selected && 0 <= at.selected <= at.pass <= at.n <= |rows|
  {
    if rows != [] {
      GapIsTheDifference(rows[..|rows| - 1], k);
      assert rows[|rows| - 1] in rows;
      assert CountsOf(rows[|rows| - 1], k).n == 1 ==> CoherentAt(rows[|rows| - 1], k);
    }
  }

  /** A larger k scores the same runs, and neither passes nor selects fewer of them. */
  lemma {:induction false} HitsGrowWithK(rows: seq<RunRow>, k: int, larger: int)
    requires AllCoherent(rows) && k <= larger && forall row <- rows :: k in row.gap && larger in row.gap
    ensures AtK(rows, k).n == AtK(rows, larger).n && AtK(rows, k).pass <= AtK(rows, larger).pass
    ensures AtK(rows, k).selected <= AtK(rows, larger).selected
  {
    if rows != [] {
      HitsGrowWithK(rows[..|rows| - 1], k, larger);
      assert rows[|rows| - 1] in rows && HitsKept(rows[|rows| - 1], k, larger);
    }
  }

  // ----- Per world, and pooled -----

  type GroupKey = (string, string)

  function KeyOf(row: RunRow): GroupKey {
    (row.scenario, row.recording)
  }

  function Group(rows: seq<RunRow>, key: GroupKey): seq<RunRow> {
    if rows == [] then []
    else Group(rows[..|rows| - 1], key) + if KeyOf(rows[|rows| - 1]) == key then [rows[|rows| - 1]] else []
  }

  predicate KeyLeq(a: GroupKey, b: GroupKey) {
    if a.0 != b.0 then Texts.Leq(a.0, b.0) else Texts.Leq(a.1, b.1)
  }

  /** By scenario and then by recording, as texts. */
  predicate Ascends(a: GroupKey, b: GroupKey) {
    Texts.Less(a.0, b.0) || (a.0 == b.0 && Texts.Less(a.1, b.1))
  }

  datatype World = World(key: GroupKey, members: seq<RunRow>)

  function SumAt(worlds: seq<World>, k: int): Counts {
    if worlds == [] then ZERO else Add(SumAt(worlds[..|worlds| - 1], k), AtK(worlds[|worlds| - 1].members, k))
  }

  ghost predicate DistinctKeys(worlds: seq<World>) {
    forall i, j :: 0 <= i < j < |worlds| ==> worlds[i].key != worlds[j].key
  }

  /** The worlds part the runs: every run is in its own world's group, in its own order. */
  ghost predicate Parts(worlds: seq<World>, rows: seq<RunRow>) {
    && DistinctKeys(worlds)
    && (forall world <- worlds :: world.members == Group(rows, world.key) && world.members != [])
    && forall row <- rows :: HasWorld(worlds, row)
  }

  function GroupSum(worlds: seq<World>, rows: seq<RunRow>, k: int): Counts {
    if worlds == [] then ZERO
      else Add(GroupSum(worlds[..|worlds| - 1], rows, k), AtK(Group(rows, worlds[|worlds| - 1].key), k))
  }

  lemma {:induction false} SumIsGroupSum(worlds: seq<World>, rows: seq<RunRow>, k: int)
    requires forall world <- worlds :: world.members == Group(rows, world.key)
    ensures SumAt(worlds, k) == GroupSum(worlds, rows, k)
  {
    if worlds != [] {
      assert worlds[|worlds| - 1] in worlds;
      SumIsGroupSum(worlds[..|worlds| - 1], rows, k);
    }
  }

  ghost predicate HasWorld(worlds: seq<World>, row: RunRow) {
    exists world <- worlds :: world.key == KeyOf(row)
  }

  lemma OneMoreInGroup(rows: seq<RunRow>, last: RunRow, key: GroupKey, k: int)
    ensures var before := AtK(Group(rows, key), k);
      AtK(Group(rows + [last], key), k) == if KeyOf(last) == key then Add(before, CountsOf(last, k)) else before
  {
    assert (rows + [last])[..|rows|] == rows;
    var group := Group(rows, key);
    assert (group + [last])[..|group|] == group && group + [] == group;
    assert Group(rows + [last], key) == group + if KeyOf(last) == key then [last] else [];
  }

  /** One more run adds its counts to its own world's group and to no other. */
  lemma {:induction false} OneMoreRow(worlds: seq<World>, rows: seq<RunRow>, last: RunRow, k: int)
    requires DistinctKeys(worlds)
    ensures var before := GroupSum(worlds, rows, k);
      GroupSum(worlds, rows + [last], k) == if HasWorld(worlds, last) then Add(before, CountsOf(last, k)) else before
  {
    if worlds != [] {
      var rest, world := worlds[..|worlds| - 1], worlds[|worlds| - 1];
      OneMoreRow(rest, rows, last, k);
      OneMoreInGroup(rows, last, world.key, k);
      InOneWorld(worlds, last);
      GroupSumStep(worlds, rows, k);
      GroupSumStep(worlds, rows + [last], k);
      AddIsAddition(GroupSum(rest, rows, k), AtK(Group(rows, world.key), k), CountsOf(last, k));
    }
  }

  lemma AddIsAddition(a: Counts, b: Counts, c: Counts)
    ensures Add(Add(a, c), b) == Add(Add(a, b), c) && Add(a, Add(b, c)) == Add(Add(a, b), c)
  {
  }

  lemma GroupSumStep(worlds: seq<World>, rows: seq<RunRow>, k: int)
    ensures GroupSum(worlds, rows, k) ==
      if worlds == [] then ZERO
      else Add(GroupSum(worlds[..|worlds| - 1], rows, k), AtK(Group(rows, worlds[|worlds| - 1].key), k))
  {
  }

  lemma InOneWorld(worlds: seq<World>, row: RunRow)
    requires worlds != [] && DistinctKeys(worlds)
    ensures var rest, world := worlds[..|worlds| - 1], worlds[|worlds| - 1];
      && (HasWorld(worlds, row) <==> HasWorld(rest, row) || world.key == KeyOf(row))
      && !(HasWorld(rest, row) && world.key == KeyOf(row))
  {
    var rest, world := worlds[..|worlds| - 1], worlds[|worlds| - 1];
    assert worlds == rest + [world];
    if HasWorld(rest, row) {
      var i :| 0 <= i < |rest| && rest[i].key == KeyOf(row);
      assert worlds[i].key != world.key;
    }
  }

  lemma {:induction false} NoRowsNoCounts(worlds: seq<World>, k: int)
    ensures GroupSum(worlds, [], k) == ZERO
  {
    if worlds != [] {
      NoRowsNoCounts(worlds[..|worlds| - 1], k);
    }
  }

  lemma {:induction false} GroupsSumToAll(worlds: seq<World>, rows: seq<RunRow>, k: int)
    requires DistinctKeys(worlds) && forall row <- rows :: HasWorld(worlds, row)
    ensures GroupSum(worlds, rows, k) == AtK(rows, k)
  {
    if rows == [] {
      NoRowsNoCounts(worlds, k);
    } else {
      var init, last := rows[..|rows| - 1], rows[|rows| - 1];
      assert rows == init + [last] && HasWorld(worlds, last);
      GroupsSumToAll(worlds, init, k);
      OneMoreRow(worlds, init, last, k);
    }
  }

  /** At every k the pooled n, pass, selected and gap are the sums of the per-world rows'. */
  lemma PooledIsTheSum(worlds: seq<World>, rows: seq<RunRow>, k: int)
    requires Parts(worlds, rows)
    ensures SumAt(worlds, k) == AtK(rows, k)
  {
    SumIsGroupSum(worlds, rows, k);
    GroupsSumToAll(worlds, rows, k);
  }

  lemma {:induction false} GroupInOrder(rows: seq<RunRow>, key: GroupKey)
    ensures PickedFrom(
      rows, Group(rows, key), (r: RunRow) => if (r.scenario, r.recording) == key then Some(r) else None)
  {
    var pick := (r: RunRow) => if (r.scenario, r.recording) == key then Some(r) else None;
    if rows == [] {
      NothingPicked(pick);
    } else {
      var init, last := rows[..|rows| - 1], rows[|rows| - 1];
      GroupInOrder(init, key);
      OneMorePicked(init, Group(init, key), pick, last);
      assert rows == init + [last];
    }
  }

  /** A world's runs are those of its scenario and its recording, in order. */
  lemma WorldsAreTheirRuns(worlds: seq<World>, rows: seq<RunRow>, world: World)
    requires Parts(worlds, rows) && world in worlds
    ensures PickedFrom(
      rows, world.members, (r: RunRow) => if (r.scenario, r.recording) == world.key then Some(r) else None)
  {
    GroupInOrder(rows, world.key);
  }

  method GroupRuns(rows: seq<RunRow>) returns (perWorld: map<GroupKey, seq<RunRow>>)
    ensures perWorld.Keys == set row <- rows :: KeyOf(row)
    ensures forall key <- perWorld :: perWorld[key] == Group(rows, key) && perWorld[key] != []
  {
    perWorld := map[];
    for i := 0 to |rows|
      invariant perWorld.Keys == set row <- rows[..i] :: KeyOf(row)
      invariant forall key <- perWorld :: perWorld[key] == Group(rows[..i], key) && perWorld[key] != []
    {
      var key := KeyOf(rows[i]);
      assert rows[..i + 1][..i] == rows[..i];
      if key !in perWorld {
        NoneOfTheGroup(rows[..i], key);
      }
      var known := if key in perWorld then perWorld[key] else [];
      perWorld := perWorld[key := known + [rows[i]]];
      assert (set row <- rows[..i + 1] :: KeyOf(row)) == (set row <- rows[..i] :: KeyOf(row)) + {key};
    }
    assert rows[..|rows|] == rows;
  }

  lemma {:induction false} NoneOfTheGroup(rows: seq<RunRow>, key: GroupKey)
    requires forall row <- rows :: KeyOf(row) != key
    ensures Group(rows, key) == []
  {
    if rows != [] {
      assert rows[|rows| - 1] in rows;
      NoneOfTheGroup(rows[..|rows| - 1], key);
    }
  }

  lemma KeysAreOrdered()
    ensures TotalPreorder(KeyLeq)
  {
    forall a: GroupKey, b: GroupKey ensures KeyLeq(a, b) || KeyLeq(b, a) {
      Texts.Total(a.0, b.0);
      Texts.Total(a.1, b.1);
    }
    forall a: GroupKey, b: GroupKey, c: GroupKey | KeyLeq(a, b) && KeyLeq(b, c) ensures KeyLeq(a, c) {
      Texts.Total(b.0, b.0);
      Texts.Transitive(a.0, b.0, c.0);
      if a.0 == c.0 {
        Texts.Antisymmetric(a.0, b.0);
        Texts.Transitive(a.1, b.1, c.1);
      }
    }
  }

  /** The per-world rows of the report, by key, and they part the runs. */
  method Summarise(rows: seq<RunRow>) returns (worlds: seq<World>)
    ensures Parts(worlds, rows)
    ensures forall i, j :: 0 <= i < j < |worlds| ==> Ascends(worlds[i].key, worlds[j].key)
    ensures forall k :: SumAt(worlds, k) == AtK(rows, k)
  {
    var perWorld := GroupRuns(rows);
    var keys := SortedKeys(perWorld.Keys);
    worlds := seq(|keys|, i requires 0 <= i < |keys| => World(keys[i], perWorld[keys[i]]));
    EveryRunHasAWorld(rows, keys, worlds);
    forall k ensures SumAt(worlds, k) == AtK(rows, k) {
      PooledIsTheSum(worlds, rows, k);
    }
  }

  method SortedKeys(keys: set<GroupKey>) returns (sorted: seq<GroupKey>)
    ensures forall key :: key in sorted <==> key in keys
    ensures forall i, j :: 0 <= i < j < |sorted| ==> sorted[i] != sorted[j] && Ascends(sorted[i], sorted[j])
  {
    var listed := ListOf(keys);
    KeysAreOrdered();
    sorted := Sort(KeyLeq, listed);
    forall i, j | 0 <= i < j < |sorted| ensures sorted[i] != sorted[j] {
      StillOnceEach(listed, sorted, i, j);
    }
    assert forall key :: key in sorted <==> key in multiset(sorted);
    assert forall key :: key in listed <==> key in multiset(listed);
  }

  lemma EveryRunHasAWorld(rows: seq<RunRow>, keys: seq<GroupKey>, worlds: seq<World>)
    requires |worlds| == |keys| && forall i :: 0 <= i < |keys| ==> worlds[i].key == keys[i]
    requires forall row <- rows :: KeyOf(row) in keys
    ensures forall row <- rows :: HasWorld(worlds, row)
  {
    forall row | row in rows ensures HasWorld(worlds, row) {
      var i :| 0 <= i < |keys| && keys[i] == KeyOf(row);
      assert worlds[i] in worlds;
    }
  }
}
