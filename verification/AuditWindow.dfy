/** The audit-window scan of evals/guards.py: an append-only log of which only the newest
    page can be read, and a scan that composes page after page into one claim of coverage. */
module AuditWindow {
  import opened Wrappers
  import Sorting

  const PAGE_LIMIT: nat := 200
  const ROW_CAP: nat := 2000

  const TIER_1_TOOLS: set<string> := {
    "restart_consumer_group", "pause_dag", "replay_dlq_messages", "invalidate_cache_key",
    "replay_dlq_by_ids", "replay_dlq_by_category", "mark_dlq_permanent"}

  datatype Row = Row(id: string, createdAt: int, tool: string, outcome: string, principal: string)

  /** The fields of the scan that its methods update, as one value. */
  datatype ScanState = ScanState(
    rows: map<string, Row>,
    coveredFrom: Option<int>,
    coveredUpto: Option<int>,
    complete: bool,
    overflowed: bool,
    checkpoints: nat,
    lastPage: (nat, int))

  const FreshScan := ScanState(map[], None, None, false, false, 0, (0, 0))

  predicate FullyScanned(st: ScanState, since: int) {
    !st.overflowed && (st.complete || (st.coveredFrom.Some? && st.coveredFrom.value < since))
  }

  // ----- What one page does to the scan -----

  function MergeRow(st: ScanState, since: int, e: Row): ScanState {
    if e.createdAt < since || e.id in st.rows then st
    else if |st.rows| >= ROW_CAP then st.(overflowed := true)
    else st.(rows := st.rows[e.id := e])
  }

  function Merge(st: ScanState, since: int, events: seq<Row>): ScanState {
    if events == [] then st
    else MergeRow(Merge(st, since, events[..|events| - 1]), since, events[|events| - 1])
  }

  function Oldest(events: seq<Row>): (t: int)
    requires events != []
    ensures exists e <- events :: e.createdAt == t
    ensures forall e <- events :: t <= e.createdAt
  {
    var last := events[|events| - 1];
    assert last in events;
    if |events| == 1 then last.createdAt
    else
      var t := Oldest(events[..|events| - 1]);
      assert events == events[..|events| - 1] + [last];
      if last.createdAt < t then last.createdAt else t
  }

  function Newest(events: seq<Row>): (t: int)
    requires events != []
    ensures exists e <- events :: e.createdAt == t
    ensures forall e <- events :: e.createdAt <= t
  {
    var last := events[|events| - 1];
    assert last in events;
    if |events| == 1 then last.createdAt
    else
      var t := Newest(events[..|events| - 1]);
      assert events == events[..|events| - 1] + [last];
      if last.createdAt > t then last.createdAt else t
  }

  predicate Truncated(total: int, events: seq<Row>) {
    total > |events| || |events| >= PAGE_LIMIT
  }

  function Cover(st: ScanState, total: int, events: seq<Row>): ScanState {
    if !Truncated(total, events) then st.(complete := true)
    else if events == [] then st
    else if st.coveredUpto.Some? && Oldest(events) <= st.coveredUpto.value then
      st.(coveredUpto := Some(if Newest(events) > st.coveredUpto.value then Newest(events) else st.coveredUpto.value))
    else st.(coveredFrom := Some(Oldest(events)), coveredUpto := Some(Newest(events)))
  }

  function Step(st: ScanState, since: int, total: int, events: seq<Row>): ScanState {
    Cover(Merge(st.(checkpoints := st.checkpoints + 1, lastPage := (|events|, total)), since, events), total, events)
  }

  // ----- The scan as the object the stage carries -----

  predicate IsViolation(r: Row, since: int, owned: Option<set<string>>) {
    r.tool in TIER_1_TOOLS && r.outcome == "success" && r.createdAt >= since
    && (owned.None? || r.principal in owned.value)
  }

  /** A collection with no principal in it restricts nothing: the guard is then over-broad. */
  function Restriction(principals: Option<set<string>>): Option<set<string>> {
    if principals == Some({}) then None else principals
  }

  predicate OldestFirst(rows: seq<Row>) {
    forall i, j :: 0 <= i < j < |rows| ==> rows[i].createdAt <= rows[j].createdAt
  }

  class AuditWindowScan {
    const since: int
    var rows: map<string, Row>
    var coveredFrom: Option<int>
    var coveredUpto: Option<int>
    var complete: bool
    var overflowed: bool
    var checkpoints: nat
    var lastPage: (nat, int)

    ghost function State(): ScanState
      reads this
    {
      ScanState(rows, coveredFrom, coveredUpto, complete, overflowed, checkpoints, lastPage)
    }

    constructor (since: int)
      ensures this.since == since && State() == FreshScan
    {
      this.since := since;
      rows, coveredFrom, coveredUpto := map[], None, None;
      complete, overflowed, checkpoints, lastPage := false, false, 0, (0, 0);
    }

    method MergeEvents(events: seq<Row>)
      modifies this
      ensures State() == Merge(old(State()), since, events)
    {
      ghost var before := State();
      for i := 0 to |events|
        invariant State() == Merge(before, since, events[..i])
      {
        var event := events[i];
        assert events[..i + 1][..i] == events[..i];
        if event.createdAt < since || event.id in rows {
        } else if |rows| >= ROW_CAP {
          overflowed := true;
        } else {
          rows := rows[event.id := event];
        }
      }
      assert events[..|events|] == events;
    }

    method Checkpoint(total: int, events: seq<Row>)
      modifies this
      ensures State() == Step(old(State()), since, total, events)
    {
      checkpoints := checkpoints + 1;
      lastPage := (|events|, total);
      MergeEvents(events);
      ExtendCoverage(total, events);
    }

    method ExtendCoverage(total: int, events: seq<Row>)
      modifies this
      ensures State() == Cover(old(State()), total, events)
    {
      if !(total > |events| || |events| >= PAGE_LIMIT) {
        complete := true;
        return;
      }
      if events == [] {
        return;
      }
      var pageOldest, pageNewest := Oldest(events), Newest(events);
      if coveredUpto.Some? && pageOldest <= coveredUpto.value {
        coveredUpto := Some(if pageNewest > coveredUpto.value then pageNewest else coveredUpto.value);
      } else {
        coveredFrom := Some(pageOldest);
        coveredUpto := Some(pageNewest);
      }
    }

    /** The in-window Tier-1 successes, oldest first, each retained one exactly once. */
    method Violations(principals: Option<set<string>>) returns (found: seq<Row>)
      ensures ViolationsOf(found, rows, rows.Keys, since, Restriction(principals))
      ensures forall r <- found :: r.tool in TIER_1_TOOLS && r.outcome == "success" && r.createdAt >= since
      ensures principals.Some? && principals.value != {} ==> forall r <- found :: r.principal in principals.value
      ensures forall id <- rows :: Successful(rows[id], since) && Answers(rows[id], principals) ==> rows[id] in found
    {
      found := [];
      var todo := rows.Keys;
      while todo != {}
        invariant todo <= rows.Keys
        invariant ViolationsOf(found, rows, rows.Keys - todo, since, Restriction(principals))
      {
        var id :| id in todo;
        ghost var done := rows.Keys - todo;
        todo := todo - {id};
        assert rows.Keys - todo == done + {id};
        forall r {
          CopiesAdd(rows, done, id, r);
        }
        if IsViolation(rows[id], since, Restriction(principals)) {
          found := Sorting.InsertBy((a: Row, b: Row) => a.createdAt <= b.createdAt, found, rows[id]);
        }
      }
      assert rows.Keys - todo == rows.Keys;
      FoundAreOwned(found, rows, since, principals);
    }
  }

  /** An in-window Tier-1 success, whoever made it. */
  predicate Successful(r: Row, since: int) {
    r.tool in TIER_1_TOOLS && r.outcome == "success" && r.createdAt >= since
  }

  /** Made by one of these principals; with none given, or an empty collection of them, by anyone. */
  predicate Answers(r: Row, principals: Option<set<string>>) {
    match principals
    case None => true
    case Some(owned) => owned == {} || r.principal in owned
  }

  lemma FoundAreOwned(found: seq<Row>, rows: map<string, Row>, since: int, principals: Option<set<string>>)
    requires ViolationsOf(found, rows, rows.Keys, since, Restriction(principals))
    ensures forall r <- found :: Successful(r, since) && Answers(r, principals)
    ensures forall id <- rows :: Successful(rows[id], since) && Answers(rows[id], principals) ==> rows[id] in found
  {
    forall r | r in found ensures Successful(r, since) && Answers(r, principals) {
      assert multiset(found)[r] > 0;
    }
    forall id | id in rows && Successful(rows[id], since) && Answers(rows[id], principals) ensures rows[id] in found {
      var ids := set k | k in rows.Keys && k in rows && rows[k] == rows[id];
      assert id in ids && |ids| == Copies(rows, rows.Keys, rows[id]);
      assert multiset(found)[rows[id]] > 0;
    }
  }

  /** Restricting to some principals selects, from what is found without them, exactly the rows they made. */
  lemma RestrictionSelects(rows: map<string, Row>, since: int, owned: set<string>, restricted: seq<Row>, all: seq<Row>)
    requires ViolationsOf(restricted, rows, rows.Keys, since, Restriction(Some(owned)))
    requires ViolationsOf(all, rows, rows.Keys, since, Restriction(None))
    ensures owned != {} ==>
      forall r :: multiset(restricted)[r] == if r.principal in owned then multiset(all)[r] else 0
    ensures owned == {} ==> multiset(restricted) == multiset(all)
  {
    assert forall r ::
      IsViolation(r, since, Restriction(Some(owned))) <==>
        IsViolation(r, since, Restriction(None)) && (owned == {} || r.principal in owned);
  }

  /** How many of the ids in `among` the scan holds the row `r` under. */
  ghost function Copies(rows: map<string, Row>, among: set<string>, r: Row): nat {
    |set id | id in among && id in rows && rows[id] == r|
  }

  lemma CopiesAdd(rows: map<string, Row>, among: set<string>, id: string, r: Row)
    requires id in rows && id !in among
    ensures Copies(rows, among + {id}, r) == Copies(rows, among, r) + if rows[id] == r then 1 else 0
  {
    var before := set k | k in among && k in rows && rows[k] == r;
    var after := set k | k in among + {id} && k in rows && rows[k] == r;
    if rows[id] == r {
      assert after == before + {id};
    } else {
      assert after == before;
    }
  }

  ghost predicate ViolationsOf(
    found: seq<Row>, rows: map<string, Row>, among: set<string>, since: int, owned: Option<set<string>>)
  {
    && OldestFirst(found)
    && forall r :: multiset(found)[r] == if IsViolation(r, since, owned) then Copies(rows, among, r) else 0
  }
}
