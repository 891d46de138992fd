/** Whole runs of the audit-window scan: appends and checkpoints in any interleaving, and
    exactly when a scan that calls itself fully scanned really holds the whole window. */
module AuditRuns {
  import opened Wrappers
  import opened AuditWindow

  // ----- Runs -----

  datatype Run =
    | Start(initial: seq<Row>)
    | Append(prev: Run, row: Row)
    | Read(prev: Run, total: int, events: seq<Row>)

  function Log(run: Run): seq<Row> {
    match run
    case Start(initial) => initial
    case Append(prev, row) => Log(prev) + [row]
    case Read(prev, _, _) => Log(prev)
  }

  /** How long the log was at the last checkpoint: 0 before the first. */
  function Seen(run: Run): nat {
    match run
    case Start(_) => 0
    case Append(prev, _) => Seen(prev)
    case Read(prev, _, _) => |Log(prev)|
  }

  function Scan(run: Run, since: int): ScanState {
    match run
    case Start(_) => FreshScan
    case Append(prev, _) => Scan(prev, since)
    case Read(prev, total, events) => Step(Scan(prev, since), since, total, events)
  }

  function PageStart(log: seq<Row>): nat {
    if |log| <= PAGE_LIMIT then 0 else |log| - PAGE_LIMIT
  }

  /** What the platform answers: the newest rows in some order, and the unlimited count. */
  ghost predicate Serves(log: seq<Row>, total: int, events: seq<Row>) {
    && total == |log|
    && |events| == |log| - PageStart(log)
    && forall e :: e in events <==> e in log[PageStart(log)..]
  }

  ghost predicate HonestReads(run: Run) {
    match run
    case Start(_) => true
    case Append(prev, _) => HonestReads(prev)
    case Read(prev, total, events) => HonestReads(prev) && Serves(Log(prev), total, events)
  }

  ghost predicate UniqueIds(log: seq<Row>) {
    forall i, j :: 0 <= i < j < |log| ==> log[i].id != log[j].id
  }

  ghost predicate StrictlyOrdered(log: seq<Row>) {
    forall i, j :: 0 <= i < j < |log| ==> log[i].createdAt < log[j].createdAt
  }

  /** A run over an append-only log whose clock never goes back; two rows may share a time. */
  ghost predicate Valid(run: Run) {
    UniqueIds(Log(run)) && OldestFirst(Log(run)) && HonestReads(run)
  }

  lemma ValidPrefix(run: Run)
    requires Valid(run) && !run.Start?
    ensures Valid(run.prev) && Seen(run.prev) <= |Log(run.prev)|
    ensures Log(run)[..|Log(run.prev)|] == Log(run.prev)
  {
    if run.Append? {
      forall i, j | 0 <= i < j < |Log(run.prev)|
        ensures Log(run.prev)[i].id != Log(run.prev)[j].id && Log(run.prev)[i].createdAt <= Log(run.prev)[j].createdAt
      {
        assert Log(run)[i] == Log(run.prev)[i] && Log(run)[j] == Log(run.prev)[j];
      }
    }
    SeenInLog(run.prev);
  }

  lemma {:induction run} SeenInLog(run: Run)
    ensures Seen(run) <= |Log(run)|
  {
  }

  /** Every row of the window up to the last checkpoint is held, as the log has it. */
  ghost predicate Held(run: Run, since: int)
    requires Seen(run) <= |Log(run)|
  {
    forall i :: 0 <= i < Seen(run) && Log(run)[i].createdAt >= since ==> HoldsRow(Scan(run, since), Log(run)[i])
  }

  ghost predicate HoldsRow(st: ScanState, r: Row) {
    r.id in st.rows && st.rows[r.id] == r
  }

  /** A checkpoint comes too late: more than a page landed since the last one (or before the
      first), and the newest row pushed off the page unread lies inside the window. */
  predicate Blind(run: Run, since: int) {
    |Log(run)| > Seen(run) + PAGE_LIMIT && Log(run)[|Log(run)| - PAGE_LIMIT - 1].createdAt >= since
  }

  predicate EverBlind(run: Run, since: int) {
    match run
    case Start(_) => false
    case Append(prev, _) => EverBlind(prev, since)
    case Read(prev, _, _) => EverBlind(prev, since) || Blind(prev, since)
  }

  // ----- One merge -----

  lemma {:induction false} MergeFrame(st: ScanState, since: int, events: seq<Row>)
    ensures var after := Merge(st, since, events);
      && after == st.(rows := after.rows, overflowed := after.overflowed)
      && (st.overflowed ==> after.overflowed)
      && (|st.rows| <= ROW_CAP ==> |after.rows| <= ROW_CAP)
  {
    if events != [] {
      MergeFrame(st, since, events[..|events| - 1]);
    }
  }

  lemma {:induction false} MergeKeeps(st: ScanState, since: int, events: seq<Row>, id: string)
    requires id in st.rows
    ensures id in Merge(st, since, events).rows && Merge(st, since, events).rows[id] == st.rows[id]
  {
    if events != [] {
      MergeKeeps(st, since, events[..|events| - 1], id);
    }
  }

  lemma {:induction false} MergeAdds(st: ScanState, since: int, events: seq<Row>, id: string)
    requires id in Merge(st, since, events).rows && id !in st.rows
    ensures Merge(st, since, events).rows[id] in events
    ensures Merge(st, since, events).rows[id].id == id && Merge(st, since, events).rows[id].createdAt >= since
  {
    if events != [] {
      var last := |events| - 1;
      if id in Merge(st, since, events[..last]).rows {
        MergeAdds(st, since, events[..last], id);
      }
    }
  }

  lemma {:induction false} MergeTakes(st: ScanState, since: int, events: seq<Row>, e: Row)
    requires e in events && e.createdAt >= since && !Merge(st, since, events).overflowed
    ensures e.id in Merge(st, since, events).rows
  {
    var last := |events| - 1;
    assert events == events[..last] + [events[last]];
    if e in events[..last] {
      MergeTakes(st, since, events[..last], e);
    }
  }

  /** The state a checkpoint merges into: only the counters have moved. */
  function Counted(st: ScanState, total: int, events: seq<Row>): ScanState {
    st.(checkpoints := st.checkpoints + 1, lastPage := (|events|, total))
  }

  // ----- Invariants of every run -----

  /** Whatever the pages hold, memory stays bounded and the covered interval is an interval. */
  lemma {:induction false} AlwaysBounded(run: Run, since: int)
    ensures var st := Scan(run, since);
      && |st.rows| <= ROW_CAP
      && (st.coveredFrom.Some? <==> st.coveredUpto.Some?)
      && (st.coveredFrom.Some? ==> st.coveredFrom.value <= st.coveredUpto.value)
  {
    if !run.Start? {
      AlwaysBounded(run.prev, since);
      if run.Read? {
        MergeFrame(Counted(Scan(run.prev, since), run.total, run.events), since, run.events);
      }
    }
  }

  lemma ReadKeeps(run: Run, since: int, id: string)
    requires run.Read? && id in Scan(run.prev, since).rows
    ensures id in Scan(run, since).rows && Scan(run, since).rows[id] == Scan(run.prev, since).rows[id]
  {
    MergeKeeps(Counted(Scan(run.prev, since), run.total, run.events), since, run.events, id);
  }

  lemma OnThePage(log: seq<Row>, total: int, events: seq<Row>, e: Row)
    requires Serves(log, total, events) && e in events
    ensures exists i :: PageStart(log) <= i < |log| && log[i] == e
  {
    var page := log[PageStart(log)..];
    assert e in page;
    var k :| 0 <= k < |page| && page[k] == e;
    assert log[PageStart(log) + k] == e;
  }

  lemma PageAdds(st: ScanState, since: int, log: seq<Row>, total: int, events: seq<Row>, id: string)
    requires Serves(log, total, events) && id in Step(st, since, total, events).rows && id !in st.rows
    ensures exists i ::
      PageStart(log) <= i < |log| && log[i] == Step(st, since, total, events).rows[id] && log[i].id == id
      && log[i].createdAt >= since
  {
    MergeAdds(Counted(st, total, events), since, events, id);
    OnThePage(log, total, events, Step(st, since, total, events).rows[id]);
  }

  /** A row older than the page and not held before is not held after. */
  lemma PageSkips(st: ScanState, since: int, log: seq<Row>, total: int, events: seq<Row>, at: nat)
    requires Serves(log, total, events) && UniqueIds(log) && at < PageStart(log) && log[at].id !in st.rows
    ensures log[at].id !in Step(st, since, total, events).rows
  {
    if log[at].id in Step(st, since, total, events).rows {
      PageAdds(st, since, log, total, events, log[at].id);
      NotOnThePage(log, at);
    }
  }

  lemma NotOnThePage(log: seq<Row>, at: nat)
    requires UniqueIds(log) && at < PageStart(log)
    ensures forall i :: PageStart(log) <= i < |log| ==> log[i].id != log[at].id
  {
  }

  /** What an honest checkpoint adds is on the page: a row no older than the page's start. */
  lemma ReadAdds(run: Run, since: int, id: string)
    requires run.Read? && Serves(Log(run), run.total, run.events)
    requires id in Scan(run, since).rows && id !in Scan(run.prev, since).rows
    ensures exists i ::
      PageStart(Log(run)) <= i < |Log(run)| && Log(run)[i] == Scan(run, since).rows[id] && Log(run)[i].id == id
      && Log(run)[i].createdAt >= since
  {
    PageAdds(Scan(run.prev, since), since, Log(run), run.total, run.events, id);
  }

  lemma PageTakes(st: ScanState, since: int, log: seq<Row>, total: int, events: seq<Row>, i: nat)
    requires Serves(log, total, events) && !Step(st, since, total, events).overflowed
    requires PageStart(log) <= i < |log| && log[i].createdAt >= since
    ensures log[i].id in Step(st, since, total, events).rows
  {
    var page := log[PageStart(log)..];
    assert page[i - PageStart(log)] == log[i] && log[i] in page;
    MergeTakes(Counted(st, total, events), since, events, log[i]);
  }

  lemma ReadTakes(run: Run, since: int, i: nat)
    requires run.Read? && Serves(Log(run), run.total, run.events) && !Scan(run, since).overflowed
    requires PageStart(Log(run)) <= i < |Log(run)| && Log(run)[i].createdAt >= since
    ensures Log(run)[i].id in Scan(run, since).rows
  {
    PageTakes(Scan(run.prev, since), since, Log(run), run.total, run.events, i);
  }

  /** Every retained row is a row of the log inside the window, already there at the last read. */
  lemma {:induction false} RowsAreReal(run: Run, since: int)
    requires Valid(run)
    ensures Seen(run) <= |Log(run)|
    ensures forall id <- Scan(run, since).rows ::
      exists i ::
        0 <= i < Seen(run) && Log(run)[i].id == id && Log(run)[i] == Scan(run, since).rows[id]
        && Log(run)[i].createdAt >= since
  {
    SeenInLog(run);
    if !run.Start? {
      ValidPrefix(run);
      RowsAreReal(run.prev, since);
      forall id | id in Scan(run.prev, since).rows
        ensures exists i ::
          0 <= i < Seen(run.prev) && Log(run)[i].id == id && Log(run)[i] == Scan(run.prev, since).rows[id]
            && Log(run)[i].createdAt >= since
      {
        var i :| 0 <= i < Seen(run.prev) && Log(run.prev)[i].id == id
          && Log(run.prev)[i] == Scan(run.prev, since).rows[id] && Log(run.prev)[i].createdAt >= since;
        assert Log(run)[i] == Log(run.prev)[i];
      }
      if run.Read? {
        forall id | id in Scan(run, since).rows
          ensures exists i ::
            0 <= i < Seen(run) && Log(run)[i].id == id && Log(run)[i] == Scan(run, since).rows[id]
              && Log(run)[i].createdAt >= since
        {
          if id in Scan(run.prev, since).rows {
            ReadKeeps(run, since, id);
          } else {
            ReadAdds(run, since, id);
          }
        }
      }
    }
  }

  /** A row's id is enough to hold it: the log never gives one id to two rows. */
  lemma HoldsById(run: Run, since: int, i: nat)
    requires Valid(run) && i < |Log(run)|
    requires Log(run)[i].id in Scan(run, since).rows
    ensures HoldsRow(Scan(run, since), Log(run)[i])
  {
    RowsAreReal(run, since);
    var j :| 0 <= j < Seen(run) && Log(run)[j].id == Log(run)[i].id
      && Log(run)[j] == Scan(run, since).rows[Log(run)[i].id];
    assert i == j;
  }

  /** The oldest and newest times of an honest page are those of its two ends in the log. */
  lemma PageEnds(log: seq<Row>, total: int, events: seq<Row>)
    requires OldestFirst(log) && Serves(log, total, events) && log != []
    ensures events != []
    ensures Oldest(events) == log[PageStart(log)].createdAt
    ensures Newest(events) == log[|log| - 1].createdAt
  {
    var page := log[PageStart(log)..];
    assert page[0] in events && page[|page| - 1] in events;
    assert forall e <- events :: e in page;
  }

  /** What a checkpoint of a truncated page does to everything but the rows. */
  lemma CoverPage(run: Run, since: int, oldest: int, newest: int)
    requires run.Read? && Truncated(run.total, run.events) && run.events != []
    requires Oldest(run.events) == oldest && Newest(run.events) == newest
    ensures var st, after := Scan(run.prev, since), Scan(run, since);
      && after.complete == st.complete
      && if st.coveredUpto.Some? && oldest <= st.coveredUpto.value
         then after.coveredFrom == st.coveredFrom
           && after.coveredUpto == Some(if newest > st.coveredUpto.value then newest else st.coveredUpto.value)
         else after.coveredFrom == Some(oldest) && after.coveredUpto == Some(newest)
  {
    MergeFrame(Counted(Scan(run.prev, since), run.total, run.events), since, run.events);
  }

  lemma PageOfRun(run: Run)
    requires Valid(run) && run.Read? && |Log(run)| >= PAGE_LIMIT
    ensures run.events != [] && Truncated(run.total, run.events)
    ensures Oldest(run.events) == Log(run)[PageStart(Log(run))].createdAt
    ensures Newest(run.events) == Log(run)[|Log(run)| - 1].createdAt
  {
    PageEnds(Log(run), run.total, run.events);
  }

  /** What reading a full page does to the coverage, in terms of the log: extended or restarted. */
  ghost predicate Extended(run: Run, since: int)
    requires run.Read? && Log(run) != []
  {
    var st, after, log := Scan(run.prev, since), Scan(run, since), Log(run);
    var oldest, newest := log[PageStart(log)].createdAt, log[|log| - 1].createdAt;
    && after.complete == st.complete
    && if st.coveredUpto.Some? && oldest <= st.coveredUpto.value
       then after.coveredFrom == st.coveredFrom
         && after.coveredUpto == Some(if newest > st.coveredUpto.value then newest else st.coveredUpto.value)
       else after.coveredFrom == Some(oldest) && after.coveredUpto == Some(newest)
  }

  lemma ReadSaturated(run: Run, since: int)
    requires Valid(run) && run.Read? && |Log(run)| >= PAGE_LIMIT
    ensures Extended(run, since)
  {
    PageOfRun(run);
    CoverPage(run, since, Oldest(run.events), Newest(run.events));
  }

  lemma ReadShort(run: Run, since: int)
    requires Valid(run) && run.Read? && |Log(run)| < PAGE_LIMIT
    ensures var st, after := Scan(run.prev, since), Scan(run, since);
      after.complete && after.coveredFrom == st.coveredFrom && after.coveredUpto == st.coveredUpto
  {
    MergeFrame(Counted(Scan(run.prev, since), run.total, run.events), since, run.events);
  }

  /** The covered interval ends at the newest row read, and there is one from the first full page on. */
  ghost predicate EndsAtSeen(run: Run, since: int)
    requires Seen(run) <= |Log(run)|
  {
    var upto := Scan(run, since).coveredUpto;
    (upto.Some? <==> Seen(run) >= PAGE_LIMIT) && (upto.Some? ==> upto.value == Log(run)[Seen(run) - 1].createdAt)
  }

  lemma {:induction false} CoverageEnds(run: Run, since: int)
    requires Valid(run)
    ensures Seen(run) <= |Log(run)| && EndsAtSeen(run, since)
  {
    SeenInLog(run);
    if !run.Start? {
      ValidPrefix(run);
      CoverageEnds(run.prev, since);
      if run.Read? && |Log(run)| >= PAGE_LIMIT {
        ReadSaturated(run, since);
        CoverageAtRead(run, since);
      } else if run.Read? {
        ReadShort(run, since);
      } else {
        assert Seen(run) > 0 ==> Log(run)[Seen(run) - 1] == Log(run.prev)[Seen(run) - 1];
      }
    }
  }

  lemma CoverageAtRead(run: Run, since: int)
    requires run.Read? && OldestFirst(Log(run)) && |Log(run)| >= PAGE_LIMIT && Extended(run, since)
    requires Seen(run.prev) <= |Log(run)| && EndsAtSeen(run.prev, since)
    ensures EndsAtSeen(run, since)
  {
    if Seen(run.prev) > 0 {
      InOrder(Log(run), Seen(run.prev) - 1, |Log(run)| - 1);
    }
  }

  // ----- Soundness, exactly -----

  /** A row of the window that was already below the page at the last checkpoint, and is not held. */
  ghost predicate Lost(run: Run, since: int, i: nat) {
    i < Seen(run) - PAGE_LIMIT && i < |Log(run)| && Log(run)[i].createdAt >= since
      && Log(run)[i].id !in Scan(run, since).rows
  }

  lemma LostForGood(run: Run, since: int, i: nat)
    requires Valid(run) && !run.Start? && Lost(run.prev, since, i)
    ensures Lost(run, since, i)
  {
    ValidPrefix(run);
    assert Log(run)[i] == Log(run.prev)[i];
    if run.Read? {
      ReadPasses(run, since, i);
    }
  }

  lemma BlindLoses(run: Run, since: int)
    requires Valid(run) && run.Read? && Blind(run.prev, since)
    ensures Lost(run, since, |Log(run)| - PAGE_LIMIT - 1)
  {
    BlindSpot(run, since);
    UnseenIsLost(run, since, |Log(run)| - PAGE_LIMIT - 1);
  }

  lemma UnseenIsLost(run: Run, since: int, at: nat)
    requires Valid(run) && run.Read? && Seen(run.prev) <= at < PageStart(Log(run))
    requires at < Seen(run) - PAGE_LIMIT && Log(run)[at].createdAt >= since
    ensures Lost(run, since, at)
  {
    StillValid(run);
    UnseenNotHeld(run.prev, since, at);
    ReadPasses(run, since, at);
  }

  /** The last row below the page of a blind checkpoint: unseen so far, in the window, and not served. */
  lemma BlindSpot(run: Run, since: int)
    requires Valid(run) && run.Read? && Blind(run.prev, since)
    ensures var at := |Log(run)| - PAGE_LIMIT - 1;
      Seen(run.prev) <= at < |Log(run)| && at < PageStart(Log(run)) && at < Seen(run) - PAGE_LIMIT
        && Log(run)[at].createdAt >= since
  {
  }

  lemma StillValid(run: Run)
    requires Valid(run) && run.Read?
    ensures Valid(run.prev)
  {
  }

  lemma ReadPasses(run: Run, since: int, at: nat)
    requires run.Read? && Serves(Log(run), run.total, run.events) && UniqueIds(Log(run))
    requires at < PageStart(Log(run)) && Log(run)[at].id !in Scan(run.prev, since).rows
    ensures Log(run)[at].id !in Scan(run, since).rows
  {
    PageSkips(Scan(run.prev, since), since, Log(run), run.total, run.events, at);
  }

  /** Only rows already there at the last checkpoint are held. */
  lemma UnseenNotHeld(run: Run, since: int, i: nat)
    requires Valid(run) && Seen(run) <= i < |Log(run)|
    ensures Log(run)[i].id !in Scan(run, since).rows
  {
    RowsAreReal(run, since);
    OneRowPerId(Log(run), i);
  }

  lemma OneRowPerId(log: seq<Row>, i: nat)
    requires UniqueIds(log) && i < |log|
    ensures forall j :: 0 <= j < i ==> log[j].id != log[i].id
  {
  }

  /** A row once skipped is lost: later pages only hold later rows. */
  lemma {:induction false} EverBlindLoses(run: Run, since: int)
    requires Valid(run) && EverBlind(run, since)
    ensures exists i: nat :: Lost(run, since, i)
  {
    if EverBlind(run.prev, since) {
      ValidPrefix(run);
      EverBlindLoses(run.prev, since);
      var i: nat :| Lost(run.prev, since, i);
      LostForGood(run, since, i);
    } else {
      BlindLoses(run, since);
    }
  }

  lemma {:induction false} SightedHoldsAll(run: Run, since: int)
    requires Valid(run) && !EverBlind(run, since) && FullyScanned(Scan(run, since), since)
    ensures Seen(run) <= |Log(run)| && Held(run, since)
  {
    SeenInLog(run);
    if !run.Start? {
      ValidPrefix(run);
      if run.Append? {
        SightedHoldsAll(run.prev, since);
        assert forall i :: 0 <= i < Seen(run) ==> Log(run)[i] == Log(run.prev)[i];
      } else {
        NotOverflowed(run, since);
        if FullyScanned(Scan(run.prev, since), since) {
          SightedHoldsAll(run.prev, since);
        } else {
          FirstCovered(run, since);
        }
        forall i | 0 <= i < Seen(run) && Log(run)[i].createdAt >= since
          ensures HoldsRow(Scan(run, since), Log(run)[i])
        {
          SightedRow(run, since, i);
          StillHeld(run, since, i);
        }
      }
    }
  }

  lemma SightedRow(run: Run, since: int, i: nat)
    requires OldestFirst(Log(run)) && run.Read? && !Blind(run.prev, since)
    requires i < |Log(run)| && Log(run)[i].createdAt >= since && Seen(run.prev) <= |Log(run.prev)|
    requires Held(run.prev, since) || PageStart(Log(run)) == 0 || Log(run)[PageStart(Log(run))].createdAt < since
    ensures i >= PageStart(Log(run)) || Log(run)[i].id in Scan(run.prev, since).rows
  {
    var log := Log(run);
    if i < PageStart(log) {
      InOrder(log, i, PageStart(log));
      InOrder(log, i, |log| - PAGE_LIMIT - 1);
      assert i < Seen(run.prev);
      assert HoldsRow(Scan(run.prev, since), Log(run.prev)[i]);
    }
  }

  lemma InOrder(log: seq<Row>, i: nat, j: nat)
    requires OldestFirst(log) && i <= j < |log|
    ensures log[i].createdAt <= log[j].createdAt
  {
  }

  /** After a checkpoint, a row is held that is on its page or was held before. */
  lemma StillHeld(run: Run, since: int, i: nat)
    requires Valid(run) && run.Read? && !Scan(run, since).overflowed
    requires i < |Log(run)| && Log(run)[i].createdAt >= since
    requires i >= PageStart(Log(run)) || Log(run)[i].id in Scan(run.prev, since).rows
    ensures HoldsRow(Scan(run, since), Log(run)[i])
  {
    if i >= PageStart(Log(run)) {
      ReadTakes(run, since, i);
    } else {
      ReadKeeps(run, since, Log(run)[i].id);
    }
    HoldsById(run, since, i);
  }

  lemma NotOverflowed(run: Run, since: int)
    requires run.Read? && !Scan(run, since).overflowed
    ensures !Scan(run.prev, since).overflowed
  {
    MergeFrame(Counted(Scan(run.prev, since), run.total, run.events), since, run.events);
  }

  /** The checkpoint that makes the scan fully scanned reads a page reaching before the window. */
  lemma FirstCovered(run: Run, since: int)
    requires Valid(run) && run.Read?
    requires FullyScanned(Scan(run, since), since) && !FullyScanned(Scan(run.prev, since), since)
    ensures PageStart(Log(run)) == 0 || Log(run)[PageStart(Log(run))].createdAt < since
  {
    var log := Log(run);
    MergeFrame(Counted(Scan(run.prev, since), run.total, run.events), since, run.events);
    if |log| >= PAGE_LIMIT {
      PageEnds(log, run.total, run.events);
    }
  }

  /** The scan's claim and the truth: a fully scanned window is wholly held if and only if no
      checkpoint was blind. */
  lemma SoundExactlyWhenNeverBlind(run: Run, since: int)
    requires Valid(run) && FullyScanned(Scan(run, since), since)
    ensures Seen(run) <= |Log(run)|
    ensures Held(run, since) <==> !EverBlind(run, since)
  {
    SeenInLog(run);
    if EverBlind(run, since) {
      EverBlindLoses(run, since);
      var i: nat :| Lost(run, since, i);
      assert !HoldsRow(Scan(run, since), Log(run)[i]);
    } else {
      SightedHoldsAll(run, since);
    }
  }

  // ----- The working rule: a strict clock, and no burst after a complete page -----

  /** Once any page was complete, at most a page of rows lands between two checkpoints. */
  predicate NoBurstAfterComplete(run: Run, since: int) {
    match run
    case Start(_) => true
    case Append(prev, _) => NoBurstAfterComplete(prev, since)
    case Read(prev, _, _) =>
      && NoBurstAfterComplete(prev, since)
      && (Scan(prev, since).complete ==> |Log(prev)| <= Seen(prev) + PAGE_LIMIT)
  }

  /** An unread row of the window, older than the page of the last checkpoint. */
  ghost predicate Passed(run: Run, since: int, i: int) {
    0 <= i < Seen(run) - PAGE_LIMIT && i < |Log(run)| && Log(run)[i].createdAt >= since
  }

  ghost predicate Restarted(run: Run, since: int) {
    var st := Scan(run, since);
    !st.complete && st.coveredFrom.Some? && st.coveredFrom.value >= since && Seen(run) >= PAGE_LIMIT
  }

  /** Under a strict clock a truncated page that skipped rows restarts the coverage inside the window. */
  lemma {:induction false} BlindRestarts(run: Run, since: int)
    requires Valid(run) && StrictlyOrdered(Log(run)) && NoBurstAfterComplete(run, since) && EverBlind(run, since)
    ensures Restarted(run, since)
    ensures exists i :: Passed(run, since, i)
  {
    ValidPrefix(run);
    if EverBlind(run.prev, since) {
      StrictPrefix(run);
      BlindRestarts(run.prev, since);
      var i :| Passed(run.prev, since, i);
      assert Log(run)[i] == Log(run.prev)[i];
      assert Passed(run, since, i);
      StaysRestarted(run, since, i);
    } else {
      FirstBlind(run, since);
    }
  }

  lemma StrictPrefix(run: Run)
    requires Valid(run) && !run.Start? && StrictlyOrdered(Log(run))
    ensures StrictlyOrdered(Log(run.prev))
  {
    ValidPrefix(run);
    assert forall i :: 0 <= i < |Log(run.prev)| ==> Log(run)[i] == Log(run.prev)[i];
  }

  lemma StaysRestarted(run: Run, since: int, i: int)
    requires Valid(run) && !run.Start? && Restarted(run.prev, since) && Passed(run, since, i)
    ensures Restarted(run, since)
  {
    if run.Read? {
      ReadSaturated(run, since);
      InOrder(Log(run), i, PageStart(Log(run)));
    }
  }

  lemma FirstBlind(run: Run, since: int)
    requires Valid(run) && StrictlyOrdered(Log(run)) && NoBurstAfterComplete(run, since)
    requires run.Read? && Blind(run.prev, since)
    ensures Restarted(run, since)
    ensures Passed(run, since, |Log(run)| - PAGE_LIMIT - 1)
  {
    BlindSkips(run, since);
    ReadSkips(run, since);
    BlindPasses(run, since);
  }

  lemma BlindPasses(run: Run, since: int)
    requires run.Read? && Blind(run.prev, since)
    ensures Passed(run, since, |Log(run)| - PAGE_LIMIT - 1)
  {
  }

  lemma BlindSkips(run: Run, since: int)
    requires Valid(run) && StrictlyOrdered(Log(run)) && run.Read? && Blind(run.prev, since)
    ensures |Log(run)| > PAGE_LIMIT && Log(run)[PageStart(Log(run))].createdAt >= since
    ensures var upto := Scan(run.prev, since).coveredUpto;
      upto.Some? ==> Log(run)[PageStart(Log(run))].createdAt > upto.value
  {
    ValidPrefix(run);
    CoverageEnds(run.prev, since);
    SkipRestarts(Log(run), Seen(run.prev), Scan(run.prev, since).coveredUpto, since);
  }

  lemma ReadSkips(run: Run, since: int)
    requires Valid(run) && run.Read? && |Log(run)| >= PAGE_LIMIT
    requires var upto := Scan(run.prev, since).coveredUpto;
      upto.Some? ==> Log(run)[PageStart(Log(run))].createdAt > upto.value
    ensures var after := Scan(run, since);
      after.complete == Scan(run.prev, since).complete
        && after.coveredFrom == Some(Log(run)[PageStart(Log(run))].createdAt)
  {
    ReadSaturated(run, since);
  }

  lemma SkipRestarts(log: seq<Row>, seen: nat, upto: Option<int>, since: int)
    requires StrictlyOrdered(log) && |log| > seen + PAGE_LIMIT && log[|log| - PAGE_LIMIT - 1].createdAt >= since
    requires upto.Some? ==> seen > 0 && upto.value == log[seen - 1].createdAt
    ensures log[PageStart(log)].createdAt >= since
    ensures upto.Some? ==> log[PageStart(log)].createdAt > upto.value
  {
    assert log[|log| - PAGE_LIMIT - 1].createdAt < log[PageStart(log)].createdAt;
    if upto.Some? {
      assert log[seen - 1].createdAt < log[PageStart(log)].createdAt;
    }
  }

  /** The documented promise: a strict clock and no burst after a complete page make
      `fully_scanned` mean that every row of the window is held. */
  lemma FullyScannedHoldsAll(run: Run, since: int)
    requires Valid(run) && StrictlyOrdered(Log(run)) && NoBurstAfterComplete(run, since)
    requires FullyScanned(Scan(run, since), since)
    ensures Seen(run) <= |Log(run)| && Held(run, since)
  {
    if EverBlind(run, since) {
      BlindRestarts(run, since);
    } else {
      SightedHoldsAll(run, since);
    }
  }

  // ----- Liveness: a scan that keeps up always ends fully scanned -----

  /** The first page is complete or reaches before the window, and later pages always overlap. */
  predicate KeepsUp(run: Run, since: int) {
    match run
    case Start(_) => true
    case Append(prev, _) => KeepsUp(prev, since)
    case Read(prev, _, _) =>
      var log := Log(prev);
      && KeepsUp(prev, since)
      && if Scan(prev, since).checkpoints == 0
         then |log| < PAGE_LIMIT || log[PageStart(log)].createdAt < since
         else |log| < Seen(prev) + PAGE_LIMIT
  }

  ghost function WindowIds(log: seq<Row>, since: int): set<string> {
    set r | r in log && r.createdAt >= since :: r.id
  }

  lemma ProperSubsetIsSmaller<T>(a: set<T>, b: set<T>, x: T)
    requires a <= b && x in b && x !in a
    ensures |a| < |b|
  {
    assert b == a + (b - a);
    assert x in b - a;
  }

  lemma {:induction false} MergeFits(st: ScanState, since: int, events: seq<Row>, ids: set<string>)
    requires !st.overflowed && st.rows.Keys <= ids && |ids| <= ROW_CAP
    requires forall e <- events :: e.createdAt >= since ==> e.id in ids
    ensures !Merge(st, since, events).overflowed && Merge(st, since, events).rows.Keys <= ids
  {
    if events != [] {
      var last := |events| - 1;
      MergeFits(st, since, events[..last], ids);
      var mid := Merge(st, since, events[..last]);
      if events[last].createdAt >= since && events[last].id !in mid.rows {
        ProperSubsetIsSmaller(mid.rows.Keys, ids, events[last].id);
        assert |mid.rows| == |mid.rows.Keys|;
      }
    }
  }

  lemma PageFits(st: ScanState, since: int, log: seq<Row>, total: int, events: seq<Row>, ids: set<string>)
    requires Serves(log, total, events) && WindowIds(log, since) <= ids && |ids| <= ROW_CAP
    requires !st.overflowed && st.rows.Keys <= ids
    ensures !Step(st, since, total, events).overflowed && Step(st, since, total, events).rows.Keys <= ids
  {
    forall e | e in events && e.createdAt >= since ensures e.id in ids {
      assert e in log[PageStart(log)..];
      assert e in log;
      assert e.id in WindowIds(log, since);
    }
    MergeFits(Counted(st, total, events), since, events, ids);
  }

  lemma {:induction false} FitsUnderTheCap(run: Run, since: int, ids: set<string>)
    requires Valid(run) && WindowIds(Log(run), since) <= ids && |ids| <= ROW_CAP
    ensures !Scan(run, since).overflowed && Scan(run, since).rows.Keys <= ids
  {
    if !run.Start? {
      ValidPrefix(run);
      assert forall r <- Log(run.prev) :: r in Log(run);
      FitsUnderTheCap(run.prev, since, ids);
      if run.Read? {
        PageFits(Scan(run.prev, since), since, Log(run), run.total, run.events, ids);
      }
    }
  }

  lemma {:induction false} OverlapKeepsCoverage(run: Run, since: int)
    requires Valid(run) && KeepsUp(run, since) && Scan(run, since).checkpoints > 0
    ensures var st := Scan(run, since); st.complete || (st.coveredFrom.Some? && st.coveredFrom.value < since)
  {
    ValidPrefix(run);
    if run.Append? {
      OverlapKeepsCoverage(run.prev, since);
    } else {
      if Scan(run.prev, since).checkpoints > 0 {
        OverlapKeepsCoverage(run.prev, since);
      }
      var log := Log(run);
      if |log| < PAGE_LIMIT {
        ReadShort(run, since);
      } else {
        ReadSaturated(run, since);
        CoverageEnds(run.prev, since);
        AlwaysBounded(run.prev, since);
        NoReadNoCoverage(run.prev, since);
      }
    }
  }

  lemma {:induction false} NoReadNoCoverage(run: Run, since: int)
    ensures Scan(run, since).checkpoints == 0 <==> Reads(run) == 0
    ensures Reads(run) == 0 ==> Scan(run, since) == FreshScan && Seen(run) == 0
  {
    if !run.Start? {
      NoReadNoCoverage(run.prev, since);
      if run.Read? {
        MergeFrame(Counted(Scan(run.prev, since), run.total, run.events), since, run.events);
      }
    }
  }

  function Reads(run: Run): nat {
    match run
    case Start(_) => 0
    case Append(prev, _) => Reads(prev)
    case Read(prev, _, _) => Reads(prev) + 1
  }

  /** A scan whose pages overlap, over a window that fits under the cap, ends fully scanned. */
  lemma KeepingUpScansFully(run: Run, since: int)
    requires Valid(run) && KeepsUp(run, since) && Reads(run) > 0
    requires |WindowIds(Log(run), since)| <= ROW_CAP
    ensures FullyScanned(Scan(run, since), since)
  {
    NoReadNoCoverage(run, since);
    FitsUnderTheCap(run, since, WindowIds(Log(run), since));
    OverlapKeepsCoverage(run, since);
  }
}
