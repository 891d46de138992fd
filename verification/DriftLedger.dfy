/** The known-drift ledger of evals/fixture_drift_ledger.py: a file that successive, partial
    observations rewrite, and that may lose only what an observation disproved. */
module DriftLedger {
  import opened Wrappers
  import opened Sorting
  import Texts

  /** A five-element key, or the four-element one that names no element of a sequence. */
  datatype DriftKey = DriftKey(scenario: string, tool: string, path: string, kind: string, index: Option<int>)
  {
    function Generic(): DriftKey {
      DriftKey(scenario, tool, path, kind, None)
    }

    function Pair(): (string, string) {
      (scenario, tool)
    }
  }

  datatype Context = FixtureDefect | PostFault | PostAction | CannedOnly | ColdStack | WarmStack | BusyWindow | NoHook

  datatype Stack = Unknown | Warm | Cold

  /** The hand-recorded justifications, by key. */
  type Justified = map<DriftKey, Context>

  /** A key's own context, else its generic key's, else a defect of the fixture. */
  function ContextOf(table: Justified, key: DriftKey): Context {
    if key in table then table[key] else if key.Generic() in table then table[key.Generic()] else FixtureDefect
  }

  /** A key whose drift this stack would show, if it were still there. */
  predicate HeldToTheRatchet(context: Context, stack: Stack) {
    match context
    case BusyWindow => false
    case ColdStack => stack == Cold
    case WarmStack => stack == Warm
    case _ => true
  }

  // ----- One observation -----

  /** What one run saw: the drift it observed and the pairs it read, on a stack. */
  datatype Observation = Observation(observed: set<DriftKey>, checked: set<(string, string)>, stack: Stack)

  /** The run read this key's fixture, would have seen the drift here, and did not. */
  predicate Disproves(table: Justified, o: Observation, key: DriftKey) {
    key !in o.observed && key.Pair() in o.checked && HeldToTheRatchet(ContextOf(table, key), o.stack)
  }

  /** `split_for_bless`: of the prior entries not observed, those carried and those disproved. */
  function SplitForBless(
      table: Justified, prior: set<DriftKey>, o: Observation): (split: (set<DriftKey>, set<DriftKey>))
    ensures split.0 !! split.1 && split.0 + split.1 == prior - o.observed
    ensures split.1 == set key | key in prior && Disproves(table, o, key)
  {
    var unobserved := prior - o.observed;
    (set key | key in unobserved && (key.Pair() !in o.checked || !HeldToTheRatchet(ContextOf(table, key), o.stack)),
     set key | key in unobserved && key.Pair() in o.checked && HeldToTheRatchet(ContextOf(table, key), o.stack))
  }

  /** The table gives the key this context: by itself, else by its four-element key, else as a defect. */
  predicate JustifiedAs(table: Justified, key: DriftKey, context: Context) {
    var four := DriftKey(key.scenario, key.tool, key.path, key.kind, None);
    || (key in table && table[key] == context)
    || (key !in table && four in table && table[four] == context)
    || (key !in table && four !in table && context == FixtureDefect)
  }

  /** Left alone by a run on this stack: a cold-stack key unless it is cold, a warm-stack key unless it is warm, and
      a busy-window key always. */
  predicate Sheltered(table: Justified, key: DriftKey, stack: Stack) {
    || JustifiedAs(table, key, BusyWindow)
    || (JustifiedAs(table, key, ColdStack) && stack != Cold)
    || (JustifiedAs(table, key, WarmStack) && stack != Warm)
  }

  /** What a ledger holds after a run is blessed: what was observed, and of the rest what was not read or is left
      alone on this stack. */
  predicate Keeps(table: Justified, prior: set<DriftKey>, o: Observation, key: DriftKey) {
    || key in o.observed
    || (key in prior && ((key.scenario, key.tool) !in o.checked || Sheltered(table, key, o.stack)))
  }

  lemma BlessKeeps(table: Justified, prior: set<DriftKey>, o: Observation)
    ensures forall key :: key in Blessed(table, prior, o) <==> Keeps(table, prior, o, key)
  {
  }

  function Blessed(table: Justified, prior: set<DriftKey>, o: Observation): set<DriftKey> {
    o.observed + SplitForBless(table, prior, o).0
  }

  function BlessedBy(table: Justified, prior: set<DriftKey>, runs: seq<Observation>): set<DriftKey> {
    if runs == [] then prior else Blessed(table, BlessedBy(table, prior, runs[..|runs| - 1]), runs[|runs| - 1])
  }

  /** No run from the `from`-th on disproves the key. */
  ghost predicate NeverDisproved(table: Justified, runs: seq<Observation>, from: nat, key: DriftKey) {
    forall j :: from <= j < |runs| ==> !Disproves(table, runs[j], key)
  }

  ghost predicate ObservedSince(table: Justified, runs: seq<Observation>, i: nat, key: DriftKey) {
    i < |runs| && key in runs[i].observed && NeverDisproved(table, runs, i + 1, key)
  }

  /** Over any sequence of blesses, the ledger holds exactly the keys some run observed, or the first
      ledger held, that no later run disproved. */
  lemma {:induction false} LedgerIsTheUndisproved(
      table: Justified, prior: set<DriftKey>, runs: seq<Observation>, key: DriftKey)
    ensures key in BlessedBy(table, prior, runs) <==>
      (key in prior && NeverDisproved(table, runs, 0, key)) || exists i: nat :: ObservedSince(table, runs, i, key)
  {
    if runs != [] {
      var init, last := runs[..|runs| - 1], runs[|runs| - 1];
      LedgerIsTheUndisproved(table, prior, init, key);
      assert runs == init + [last];
      if key in last.observed {
        assert ObservedSince(table, runs, |init|, key);
      } else {
        if key in BlessedBy(table, prior, runs) {
          StillUndisproved(table, prior, runs, key);
        }
        if exists i: nat :: ObservedSince(table, runs, i, key) {
          var i: nat :| ObservedSince(table, runs, i, key);
          assert i < |init| && !Disproves(table, last, key);
          assert ObservedSince(table, init, i, key);
        }
        if key in prior && NeverDisproved(table, runs, 0, key) {
          assert !Disproves(table, runs[|init|], key);
          assert NeverDisproved(table, init, 0, key);
        }
      }
    }
  }

  lemma StillUndisproved(table: Justified, prior: set<DriftKey>, runs: seq<Observation>, key: DriftKey)
    requires runs != [] && key !in runs[|runs| - 1].observed && key in BlessedBy(table, prior, runs)
    requires var init := runs[..|runs| - 1];
      (key in prior && NeverDisproved(table, init, 0, key)) || exists i: nat :: ObservedSince(table, init, i, key)
    ensures (key in prior && NeverDisproved(table, runs, 0, key)) || exists i: nat :: ObservedSince(table, runs, i, key)
  {
    var init, last := runs[..|runs| - 1], runs[|runs| - 1];
    assert !Disproves(table, last, key);
    assert runs == init + [last];
    if key in prior && NeverDisproved(table, init, 0, key) {
      assert NeverDisproved(table, runs, 0, key);
    } else {
      var i: nat :| ObservedSince(table, init, i, key);
      assert ObservedSince(table, runs, i, key);
    }
  }

  /** A pair that is among the checked ones of no run loses no key. */
  lemma {:induction false} UnreadPairsLoseNothing(
      table: Justified, prior: set<DriftKey>, runs: seq<Observation>, key: DriftKey)
    requires key in prior && forall j :: 0 <= j < |runs| ==> key.Pair() !in runs[j].checked
    ensures key in BlessedBy(table, prior, runs)
  {
    LedgerIsTheUndisproved(table, prior, runs, key);
  }

  // ----- Classifying a run against the ledger -----

  /** Recorded drift that this observation shows gone, except in pairs the run could not read. */
  function Stale(
      table: Justified, ledger: set<DriftKey>, o: set<DriftKey>, unread: set<(string, string)>, stack: Stack)
    : set<DriftKey> {
    var generic := set key | key in o :: key.Generic();
    set key | key in ledger && key !in o && key !in generic && key.Pair() !in unread
      && HeldToTheRatchet(ContextOf(table, key), stack)
  }

  /** Observed drift the ledger records neither exactly nor by its four-element key. */
  function New(ledger: set<DriftKey>, o: set<DriftKey>): set<DriftKey> {
    set key | key in o && key !in ledger && key.Generic() !in ledger
  }

  /** Classifying the drifts just blessed finds nothing new, and nothing stale among the pairs read. */
  lemma BlessSettles(
      table: Justified, prior: set<DriftKey>, o: Observation, unread: set<(string, string)>, key: DriftKey)
    ensures New(Blessed(table, prior, o), o.observed) == {}
    ensures key in Stale(table, Blessed(table, prior, o), o.observed, unread, o.stack) ==> key.Pair() !in o.checked
  {
  }

  /** A bless adds the observed keys that were not recorded; the new ones are those no four-element key covered. */
  lemma BlessAdds(table: Justified, prior: set<DriftKey>, o: Observation)
    ensures Blessed(table, prior, o) - prior == o.observed - prior
    ensures New(prior, o.observed) == set key | key in Blessed(table, prior, o) - prior &&
      DriftKey(key.scenario, key.tool, key.path, key.kind, None) !in prior
  {
  }

  /** Every observed key names an element: `Drift.key` always has five. */
  predicate AllIndexed(o: set<DriftKey>) {
    forall key <- o :: key.index.Some?
  }

  /** A four-element ledger key covering an observed drift, in a pair this run read and holds to account. */
  predicate CoveredGenerically(table: Justified, o: Observation, key: DriftKey) {
    key.index.None? && Disproves(table, o, key) && exists seen <- o.observed :: seen.Generic() == key
  }

  /** `classify` and `split_for_bless` agree on what is gone except on the generic keys that still
      cover an observed drift: those the bless replaces, and the check does not call stale. */
  lemma StaleAgainstDisproved(table: Justified, ledger: set<DriftKey>, o: Observation, unread: set<(string, string)>)
    requires AllIndexed(o.observed)
    requires forall key <- ledger :: key.Pair() in unread <==> key.Pair() !in o.checked
    ensures Stale(table, ledger, o.observed, unread, o.stack) <= SplitForBless(table, ledger, o).1
    ensures Stale(table, ledger, o.observed, unread, o.stack) == SplitForBless(table, ledger, o).1 <==>
      forall key <- ledger :: !CoveredGenerically(table, o, key)
  {
    var stale, gone := Stale(table, ledger, o.observed, unread, o.stack), SplitForBless(table, ledger, o).1;
    forall key | key in ledger
      ensures key in stale <==> key in gone && !CoveredGenerically(table, o, key)
    {
      var generic := set seen | seen in o.observed :: seen.Generic();
      if key in generic {
        var seen :| seen in o.observed && seen.Generic() == key;
      }
    }
    if stale == gone {
      forall key | key in ledger ensures !CoveredGenerically(table, o, key) {
        assert key in stale <==> key in gone;
      }
    }
  }

  function Fours(keys: set<DriftKey>): set<DriftKey> {
    set key <- keys :: DriftKey(key.scenario, key.tool, key.path, key.kind, None)
  }

  /** A run the check passes changes nothing when it is blessed, but to name the elements of recorded drift: the
      ledger's keys are the same up to their elements. */
  lemma PassingRunIsRecorded(table: Justified, ledger: set<DriftKey>, o: Observation, unread: set<(string, string)>)
    requires AllIndexed(o.observed)
    requires forall key <- ledger :: key.Pair() in unread <==> key.Pair() !in o.checked
    requires New(ledger, o.observed) == {} && Stale(table, ledger, o.observed, unread, o.stack) == {}
    ensures Fours(Blessed(table, ledger, o)) == Fours(ledger)
  {
    var after := Blessed(table, ledger, o);
    forall key | key in ledger ensures key.Generic() in Fours(after) {
      if key !in after {
        assert key in SplitForBless(table, ledger, o).1;
        var generic := set seen | seen in o.observed :: seen.Generic();
        assert key !in Stale(table, ledger, o.observed, unread, o.stack);
        assert key in generic;
        var seen :| seen in o.observed && seen.Generic() == key;
        assert seen in after && seen.Generic() == key.Generic();
      }
    }
    forall key | key in after ensures key.Generic() in Fours(ledger) {
      if key !in ledger {
        assert key !in New(ledger, o.observed);
        assert key.Generic() in ledger && key.Generic().Generic() == key.Generic();
      }
    }
  }

  // ----- The file -----

  datatype Row =
    | ArrayRow(cells: seq<string>)
    | ObjectRow(key: DriftKey, context: Context)
    | OtherRow

  /** The parsed file: its rows, and whatever else stands beside them. */
  datatype Document = Document(foreign: map<string, string>, rows: seq<Row>)

  datatype LedgerEntry = LedgerEntry(key: DriftKey, context: Context)

  function RowKey(row: Row): Option<DriftKey> {
    match row
    case ArrayRow(cells) =>
      if |cells| == 4 then Some(DriftKey(cells[0], cells[1], cells[2], cells[3], None)) else None
    case ObjectRow(key, _) => Some(key)
    case OtherRow => None
  }

  function KeysIn(rows: seq<Row>): set<DriftKey> {
    set row <- rows | RowKey(row).Some? :: RowKey(row).value
  }

  function LedgerKeys(document: Option<Document>): set<DriftKey> {
    if document.None? then {} else KeysIn(document.value.rows)
  }

  /** What a file records: the key of each object row, and a four-element key for each array of four texts. */
  lemma FileRecords(rows: seq<Row>, key: DriftKey)
    ensures key in KeysIn(rows) <==>
      || (exists context :: ObjectRow(key, context) in rows)
      || (key.index.None? && ArrayRow([key.scenario, key.tool, key.path, key.kind]) in rows)
  {
    if key in KeysIn(rows) {
      var row :| row in rows && RowKey(row) == Some(key);
      if row.ArrayRow? {
        assert row.cells == [key.scenario, key.tool, key.path, key.kind];
      }
    }
    if context :| ObjectRow(key, context) in rows {
      assert RowKey(ObjectRow(key, context)) == Some(key);
    }
    if key.index.None? && ArrayRow([key.scenario, key.tool, key.path, key.kind]) in rows {
      assert RowKey(ArrayRow([key.scenario, key.tool, key.path, key.kind])) == Some(key);
    }
  }

  /** Text by text, then the four-element key before the five-element ones. */
  predicate KeyLeq(a: DriftKey, b: DriftKey) {
    if a.scenario != b.scenario then Texts.Leq(a.scenario, b.scenario)
    else if a.tool != b.tool then Texts.Leq(a.tool, b.tool)
    else if a.path != b.path then Texts.Leq(a.path, b.path)
    else if a.kind != b.kind then Texts.Leq(a.kind, b.kind)
    else Rank(a) <= Rank(b)
  }

  function Rank(key: DriftKey): int {
    if key.index.None? then -1 else key.index.value
  }

  lemma KeyLeqTotal(a: DriftKey, b: DriftKey)
    ensures KeyLeq(a, b) || KeyLeq(b, a)
  {
    Texts.Total(a.scenario, b.scenario);
    Texts.Total(a.tool, b.tool);
    Texts.Total(a.path, b.path);
    Texts.Total(a.kind, b.kind);
  }

  /** One component of a lexicographic comparison settles or passes on. */
  lemma ComponentChain(x: string, y: string, z: string)
    requires Texts.Leq(x, y) && Texts.Leq(y, z)
    ensures Texts.Leq(x, z) && (x == z ==> x == y)
  {
    Texts.Transitive(x, y, z);
    if x == z {
      Texts.Antisymmetric(x, y);
    }
  }

  lemma LeqSelf(x: string)
    ensures Texts.Leq(x, x)
  {
    Texts.Total(x, x);
  }

  lemma KeyLeqTransitive(a: DriftKey, b: DriftKey, c: DriftKey)
    requires KeyLeq(a, b) && KeyLeq(b, c)
    ensures KeyLeq(a, c)
  {
    LeqSelf(b.scenario);
    ComponentChain(a.scenario, b.scenario, c.scenario);
    if a.scenario == c.scenario {
      LeqSelf(b.tool);
      ComponentChain(a.tool, b.tool, c.tool);
      if a.tool == c.tool {
        LeqSelf(b.path);
        ComponentChain(a.path, b.path, c.path);
        if a.path == c.path {
          LeqSelf(b.kind);
          ComponentChain(a.kind, b.kind, c.kind);
        }
      }
    }
  }

  lemma KeyLeqIsTotal()
    ensures TotalPreorder(KeyLeq)
  {
    forall a: DriftKey, b: DriftKey ensures KeyLeq(a, b) || KeyLeq(b, a) { KeyLeqTotal(a, b); }
    forall a: DriftKey, b: DriftKey, c: DriftKey | KeyLeq(a, b) && KeyLeq(b, c)
      ensures KeyLeq(a, c) { KeyLeqTransitive(a, b, c); }
  }

  class LedgerFile {
    var document: Option<Document>

    /** `load_entries`: the recorded keys with the context the code gives them now, not the file's copy. */
    method LoadEntries(table: Justified) returns (entries: seq<LedgerEntry>)
      ensures (set e <- entries :: e.key) == LedgerKeys(document)
      ensures forall e <- entries :: e.context == ContextOf(table, e.key)
    {
      entries := [];
      if document.None? {
        return;
      }
      var rows := document.value.rows;
      for i := 0 to |rows|
        invariant (set e <- entries :: e.key) == KeysIn(rows[..i])
        invariant forall e <- entries :: e.context == ContextOf(table, e.key)
      {
        assert rows[..i + 1] == rows[..i] + [rows[i]];
        KeysAppend(rows[..i], rows[i]);
        var key := RowKey(rows[i]);
        if key.Some? {
          ghost var before := entries;
          entries := entries + [LedgerEntry(key.value, ContextOf(table, key.value))];
          assert (set e <- entries :: e.key) == (set e <- before :: e.key) + {key.value};
        }
      }
      assert rows[..|rows|] == rows;
    }

    /** `dump_ledger`: the file now records the observed keys and what the observation could not disprove,
        each once and in order; foreign keys are kept; and the return value counts the rows. */
    method DumpLedger(table: Justified, o: Observation) returns (count: nat)
      modifies this
      ensures document.Some?
      ensures LedgerKeys(document) == Blessed(table, old(LedgerKeys(document)), o)
      ensures forall key :: key in LedgerKeys(document) <==> Keeps(table, old(LedgerKeys(document)), o, key)
      ensures count == |document.value.rows| == |LedgerKeys(document)|
      ensures InKeyOrder(table, document.value.rows)
      ensures document.value.foreign == if old(document).Some? then old(document).value.foreign else map[]
    {
      var foreign := if document.Some? then document.value.foreign else map[];
      var entries := LoadEntries(table);
      var prior := set e <- entries :: e.key;
      var keys := Blessed(table, prior, o);
      BlessKeeps(table, prior, o);
      var rows := BuildRows(table, keys);
      document := Some(Document(foreign, rows));
      count := |keys|;
    }
  }

  method BuildRows(table: Justified, keys: set<DriftKey>) returns (rows: seq<Row>)
    ensures KeysIn(rows) == keys && |rows| == |keys| && InKeyOrder(table, rows)
  {
    var listed := ListOf(keys);
    KeyLeqIsTotal();
    var sorted := Sort(KeyLeq, listed);
    rows := [];
    for i := 0 to |sorted|
      invariant rows == RowsOf(table, sorted[..i])
    {
      rows := rows + [ObjectRow(sorted[i], ContextOf(table, sorted[i]))];
    }
    assert sorted[..|sorted|] == sorted;
    RowsRecord(table, listed, sorted, keys);
  }

  lemma KeysAppend(rows: seq<Row>, row: Row)
    ensures KeysIn(rows + [row]) == KeysIn(rows) + if RowKey(row).Some? then {RowKey(row).value} else {}
  {
  }

  function RowsOf(table: Justified, keys: seq<DriftKey>): seq<Row> {
    seq(|keys|, i requires 0 <= i < |keys| => ObjectRow(keys[i], ContextOf(table, keys[i])))
  }

  /** Rows as a dump writes them: ascending keys, none twice, each with the context the code gives it. */
  ghost predicate InKeyOrder(table: Justified, rows: seq<Row>) {
    && (forall i :: 0 <= i < |rows| ==> rows[i].ObjectRow? && rows[i].context == ContextOf(table, rows[i].key))
    && forall i, j :: 0 <= i < j < |rows| ==>
      rows[i].ObjectRow? && rows[j].ObjectRow? && KeyLeq(rows[i].key, rows[j].key) && rows[i].key != rows[j].key
  }

  /** Within a scenario rows stand by tool, within a tool by path, within a path by kind; and of one such place the
      row without an element comes first, then the elements in their order. */
  lemma FileOrder(table: Justified, rows: seq<Row>, i: nat, j: nat)
    requires InKeyOrder(table, rows) && i < j < |rows| && rows[i].ObjectRow? && rows[j].ObjectRow?
    requires rows[i].key.index.Some? ==> rows[i].key.index.value >= 0
    ensures var a, b := rows[i].key, rows[j].key;
      || Texts.Less(a.scenario, b.scenario)
      || (a.scenario == b.scenario && Texts.Less(a.tool, b.tool))
      || (a.Pair() == b.Pair() && Texts.Less(a.path, b.path))
      || (a.Pair() == b.Pair() && a.path == b.path && Texts.Less(a.kind, b.kind))
      || (a.(index := None) == b.(index := None) && b.index.Some? && (a.index.None? || a.index.value < b.index.value))
  {
  }

  lemma RowsRecord(table: Justified, listed: seq<DriftKey>, sorted: seq<DriftKey>, keys: set<DriftKey>)
    requires multiset(listed) == multiset(keys) && multiset(sorted) == multiset(listed) && SortedBy(KeyLeq, sorted)
    ensures KeysIn(RowsOf(table, sorted)) == keys && |sorted| == |keys|
    ensures InKeyOrder(table, RowsOf(table, sorted))
  {
    var rows := RowsOf(table, sorted);
    assert |multiset(sorted)| == |sorted| && |multiset(keys)| == |keys|;
    forall key ensures key in KeysIn(rows) <==> key in keys {
      if key in keys {
        assert key in multiset(sorted);
        var i :| 0 <= i < |sorted| && sorted[i] == key;
        assert rows[i] in rows;
      }
      if key in KeysIn(rows) {
        var i :| 0 <= i < |rows| && rows[i].key == key;
        assert sorted[i] in multiset(sorted);
      }
    }
    forall i, j | 0 <= i < j < |sorted| ensures sorted[i] != sorted[j] {
      OnceInASet(keys, sorted, i, j);
    }
  }

  lemma OnceInASet(keys: set<DriftKey>, sorted: seq<DriftKey>, i: nat, j: nat)
    requires multiset(sorted) == multiset(keys) && i < j < |sorted|
    ensures sorted[i] != sorted[j]
  {
    assert sorted == sorted[..j] + ([sorted[j]] + sorted[j + 1..]);
    assert sorted[i] in sorted[..j];
    assert multiset(sorted[..j])[sorted[i]] >= 1;
    assert multiset(keys)[sorted[i]] <= 1;
  }
}
