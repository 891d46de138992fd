/** The post-stage assertion of evals/guards.py, what its verdict is worth over a whole run,
    and the two runs that refute the unconditional claim of coverage. */
module AuditVerdict {
  import opened Wrappers
  import opened AuditWindow
  import opened AuditRuns

  /** What the last read of the log brought back. */
  datatype Reading = Page(total: int, events: seq<Row>) | ReadFailed

  datatype Verdict =
    | Clean
    | WrongWindow
    | Unreadable
    | Inconclusive(visible: seq<Row>)
    | Violated(found: seq<Row>)

  /** No retained row is an in-window Tier-1 success of the stage's principals. */
  predicate NoneRetained(st: ScanState, since: int, principals: Option<set<string>>) {
    forall id <- st.rows :: !IsViolation(st.rows[id], since, Restriction(principals))
  }

  ghost predicate IsVerdict(v: Verdict, st: ScanState, since: int, principals: Option<set<string>>) {
    match v
    case Clean => FullyScanned(st, since) && NoneRetained(st, since, principals)
    case Inconclusive(visible) =>
      !FullyScanned(st, since) && ViolationsOf(visible, st.rows, st.rows.Keys, since, Restriction(principals))
    case Violated(found) =>
      && FullyScanned(st, since) && found != []
      && ViolationsOf(found, st.rows, st.rows.Keys, since, Restriction(principals))
    case _ => false
  }

  method AssertNoTier1Successes(
      scan: AuditWindowScan?, since: int, reading: Reading, principals: Option<set<string>>)
    returns (verdict: Verdict)
    modifies if scan == null then {} else {scan}
    ensures scan != null && scan.since != since ==> verdict == WrongWindow && scan.State() == old(scan.State())
    ensures scan != null && scan.since == since && reading.ReadFailed? ==>
      verdict == Unreadable && scan.State() == old(scan.State())
    ensures scan != null && scan.since == since && reading.Page? ==>
      && scan.State() == Step(old(scan.State()), since, reading.total, reading.events)
      && IsVerdict(verdict, scan.State(), since, principals)
    ensures scan == null && reading.ReadFailed? ==> verdict == Unreadable
    ensures scan == null && reading.Page? ==>
      IsVerdict(verdict, Step(FreshScan, since, reading.total, reading.events), since, principals)
  {
    var window: AuditWindowScan;
    if scan == null {
      window := new AuditWindowScan(since);
    } else if scan.since != since {
      return WrongWindow;
    } else {
      window := scan;
    }
    if reading.ReadFailed? {
      return Unreadable;
    }
    window.Checkpoint(reading.total, reading.events);
    var found := window.Violations(principals);
    NoneFound(found, window.State(), since, principals);
    var full := !window.overflowed
      && (window.complete || (window.coveredFrom.Some? && window.coveredFrom.value < since));
    if !full {
      return Inconclusive(found);
    }
    if found != [] {
      return Violated(found);
    }
    return Clean;
  }

  lemma NoneFound(found: seq<Row>, st: ScanState, since: int, principals: Option<set<string>>)
    requires ViolationsOf(found, st.rows, st.rows.Keys, since, Restriction(principals))
    ensures found == [] <==> NoneRetained(st, since, principals)
  {
    if found == [] {
      forall id | id in st.rows ensures !IsViolation(st.rows[id], since, Restriction(principals)) {
        var r := st.rows[id];
        var ids := set k | k in st.rows.Keys && k in st.rows && st.rows[k] == r;
        assert id in ids && |ids| == Copies(st.rows, st.rows.Keys, r);
        assert multiset(found)[r] == 0;
      }
    } else {
      FoundIsRetained(found, st, since, principals, found[0]);
    }
  }

  lemma FoundIsRetained(found: seq<Row>, st: ScanState, since: int, principals: Option<set<string>>, r: Row)
    requires ViolationsOf(found, st.rows, st.rows.Keys, since, Restriction(principals)) && r in found
    ensures IsViolation(r, since, Restriction(principals)) && exists id <- st.rows :: st.rows[id] == r
  {
    assert multiset(found)[r] > 0;
    var ids := set k | k in st.rows.Keys && k in st.rows && st.rows[k] == r;
    assert ids != {};
    var id :| id in ids;
  }

  /** The log, up to the last read, records an in-window Tier-1 success of the stage's principals. */
  ghost predicate Recorded(run: Run, since: int, principals: Option<set<string>>)
    requires Seen(run) <= |Log(run)|
  {
    exists i :: 0 <= i < Seen(run) && IsViolation(Log(run)[i], since, Restriction(principals))
  }

  /** The verdict is the log's own: where no checkpoint was blind, a run is called clean or
      violated according to what the log recorded, and is never called both or neither. */
  lemma VerdictIsTheLogs(run: Run, since: int, principals: Option<set<string>>, v: Verdict)
    requires Valid(run) && IsVerdict(v, Scan(run, since), since, principals)
    requires !EverBlind(run, since)
    ensures Seen(run) <= |Log(run)|
    ensures FullyScanned(Scan(run, since), since) ==>
      (v.Clean? <==> !Recorded(run, since, principals)) && (v.Violated? <==> Recorded(run, since, principals))
    ensures !FullyScanned(Scan(run, since), since) ==> v.Inconclusive?
  {
    SeenInLog(run);
    var st := Scan(run, since);
    if FullyScanned(st, since) {
      SightedHoldsAll(run, since);
      if v.Violated? {
        NoneFound(v.found, st, since, principals);
      }
      if !NoneRetained(st, since, principals) {
        var id :| id in st.rows && IsViolation(st.rows[id], since, Restriction(principals));
        RowsAreReal(run, since);
      }
      if Recorded(run, since, principals) {
        var i :| 0 <= i < Seen(run) && IsViolation(Log(run)[i], since, Restriction(principals));
        assert HoldsRow(st, Log(run)[i]);
      }
    }
  }

  /** The newest page of the last checkpoint is held, whatever was skipped before it. */
  lemma {:induction false} LastPageHeld(run: Run, since: int, i: nat)
    requires Valid(run) && !Scan(run, since).overflowed
    requires Seen(run) - PAGE_LIMIT <= i < Seen(run) && i < |Log(run)| && Log(run)[i].createdAt >= since
    ensures HoldsRow(Scan(run, since), Log(run)[i])
  {
    if run.Append? {
      ValidPrefix(run);
      assert Log(run)[i] == Log(run.prev)[i];
      LastPageHeld(run.prev, since, i);
    } else if run.Read? {
      StillHeld(run, since, i);
    }
  }

  /** A success of the log the scan will never hold. */
  ghost predicate LostViolation(run: Run, since: int, principals: Option<set<string>>, i: nat) {
    Lost(run, since, i) && IsViolation(Log(run)[i], since, Restriction(principals))
  }

  lemma HeldOrLost(run: Run, since: int, principals: Option<set<string>>, i: nat)
    requires Valid(run) && !Scan(run, since).overflowed && NoneRetained(Scan(run, since), since, principals)
    requires i < Seen(run) <= |Log(run)| && IsViolation(Log(run)[i], since, Restriction(principals))
    ensures LostViolation(run, since, principals, i)
  {
    if i >= Seen(run) - PAGE_LIMIT {
      LastPageHeld(run, since, i);
    } else if Log(run)[i].id in Scan(run, since).rows {
      HoldsById(run, since, i);
    }
  }

  /** A fully scanned run, blind or not, is called clean over a log that records a success exactly when
      some success is lost and none is held. */
  lemma CleanIsWrongExactly(run: Run, since: int, principals: Option<set<string>>, v: Verdict)
    requires Valid(run) && FullyScanned(Scan(run, since), since)
    requires IsVerdict(v, Scan(run, since), since, principals)
    ensures Seen(run) <= |Log(run)|
    ensures v.Clean? && Recorded(run, since, principals) <==>
      (exists i: nat :: LostViolation(run, since, principals, i)) && NoneRetained(Scan(run, since), since, principals)
  {
    SeenInLog(run);
    CleanMeansNoneRetained(Scan(run, since), since, principals, v);
    if v.Clean? && Recorded(run, since, principals) {
      var i: nat :| i < Seen(run) && IsViolation(Log(run)[i], since, Restriction(principals));
      HeldOrLost(run, since, principals, i);
    }
  }

  lemma CleanMeansNoneRetained(st: ScanState, since: int, principals: Option<set<string>>, v: Verdict)
    requires FullyScanned(st, since) && IsVerdict(v, st, since, principals)
    ensures v.Clean? <==> NoneRetained(st, since, principals)
  {
    if v.Violated? {
      NoneFound(v.found, st, since, principals);
    }
  }

  /** What the verdict is for, in the log's own terms: over a run never blind and fully scanned, a Tier-1 success in
      the window by a principal asked about is a violation. */
  lemma OwnedSuccessIsViolated(run: Run, since: int, principals: Option<set<string>>, v: Verdict, i: nat)
    requires Valid(run) && IsVerdict(v, Scan(run, since), since, principals)
    requires !EverBlind(run, since) && FullyScanned(Scan(run, since), since)
    requires i < Seen(run) <= |Log(run)| && Log(run)[i].tool in TIER_1_TOOLS && Log(run)[i].outcome == "success"
    requires Log(run)[i].createdAt >= since
    requires principals.Some? && principals.value != {} ==> Log(run)[i].principal in principals.value
    ensures v.Violated? && Log(run)[i] in v.found
  {
    VerdictIsTheLogs(run, since, principals, v);
    SightedHoldsAll(run, since);
    assert HoldsRow(Scan(run, since), Log(run)[i]);
    assert IsViolation(Log(run)[i], since, Restriction(principals));
    FoundAreOwned(v.found, Scan(run, since).rows, since, principals);
  }

  /** And where every Tier-1 success seen is older than the window or by someone not asked about, it is clean. */
  lemma OthersSuccessesAreClean(run: Run, since: int, principals: Option<set<string>>, v: Verdict)
    requires Valid(run) && IsVerdict(v, Scan(run, since), since, principals) && Seen(run) <= |Log(run)|
    requires !EverBlind(run, since) && FullyScanned(Scan(run, since), since)
    requires forall i :: 0 <= i < Seen(run) && Log(run)[i].tool in TIER_1_TOOLS && Log(run)[i].outcome == "success" ==>
      || Log(run)[i].createdAt < since
      || (principals.Some? && principals.value != {} && Log(run)[i].principal !in principals.value)
    ensures v.Clean?
  {
    VerdictIsTheLogs(run, since, principals, v);
    assert !Recorded(run, since, principals);
  }

  /** Blind or not, every violation a verdict names is a row of the log, in the window. */
  lemma {:induction false} NamedViolationsAreReal(
      run: Run, since: int, principals: Option<set<string>>, v: Verdict, r: Row)
    requires Valid(run) && IsVerdict(v, Scan(run, since), since, principals)
    requires (v.Violated? && r in v.found) || (v.Inconclusive? && r in v.visible)
    ensures Seen(run) <= |Log(run)|
    ensures r in Log(run)[..Seen(run)] && IsViolation(r, since, Restriction(principals))
  {
    SeenInLog(run);
    RowsAreReal(run, since);
    FoundIsRetained(if v.Violated? then v.found else v.visible, Scan(run, since), since, principals, r);
  }

  // ----- The unconditional claim is false: two runs -----

  /** Ids told apart by their length. */
  function Name(n: nat): (s: string)
    ensures |s| == n
  {
    seq(n, _ => 'r')
  }

  function Served(n: nat, at: int): Row {
    Row(Name(n), at, "get_trace", "success", "agent")
  }

  function Paused(n: nat, at: int): Row {
    Row(Name(n), at, "pause_dag", "success", "agent")
  }

  function AppendAll(run: Run, rows: seq<Row>): Run {
    if rows == [] then run else Append(AppendAll(run, rows[..|rows| - 1]), rows[|rows| - 1])
  }

  lemma {:induction false} AppendAllShape(run: Run, rows: seq<Row>, since: int)
    ensures var after := AppendAll(run, rows);
      && Log(after) == Log(run) + rows && Seen(after) == Seen(run) && Scan(after, since) == Scan(run, since)
      && (HonestReads(after) <==> HonestReads(run)) && (EverBlind(after, since) <==> EverBlind(run, since))
  {
    if rows != [] {
      AppendAllShape(run, rows[..|rows| - 1], since);
      assert rows == rows[..|rows| - 1] + [rows[|rows| - 1]];
    } else {
      assert Log(run) + rows == Log(run);
    }
  }

  /** A checkpoint that answers with the newest rows, in log order. */
  function ReadNow(run: Run): Run {
    Read(run, |Log(run)|, Log(run)[PageStart(Log(run))..])
  }

  function TwoReads(initial: seq<Row>, rows: seq<Row>): Run {
    ReadNow(AppendAll(ReadNow(Start(initial)), rows))
  }

  lemma TwoReadsShape(initial: seq<Row>, rows: seq<Row>, since: int)
    ensures var run, first := TwoReads(initial, rows), ReadNow(Start(initial));
      && Log(run) == initial + rows && Seen(run) == |initial + rows|
      && Log(run.prev) == initial + rows && Seen(run.prev) == |initial|
      && HonestReads(run) && Scan(run.prev, since) == Scan(first, since)
      && (NoBurstAfterComplete(run, since) <==> (Scan(first, since).complete ==> |rows| <= PAGE_LIMIT))
  {
    var first := ReadNow(Start(initial));
    AppendAllShape(first, rows, since);
    NoBurstShape(first, rows, since);
  }

  lemma {:induction false} NoBurstShape(run: Run, rows: seq<Row>, since: int)
    ensures NoBurstAfterComplete(AppendAll(run, rows), since) <==> NoBurstAfterComplete(run, since)
  {
    if rows != [] {
      NoBurstShape(run, rows[..|rows| - 1], since);
    }
  }

  lemma CompleteStays(run: Run, since: int)
    requires run.Read? && Scan(run.prev, since).complete
    ensures Scan(run, since).complete
  {
    MergeFrame(Counted(Scan(run.prev, since), run.total, run.events), since, run.events);
  }

  lemma QuietPage(run: Run, since: int)
    requires Valid(run) && run.Read? && NoneRetained(Scan(run.prev, since), since, None)
    requires Quiet(Log(run), PageStart(Log(run)), since)
    ensures NoneRetained(Scan(run, since), since, None)
  {
    var st := Scan(run, since);
    forall id | id in st.rows ensures !IsViolation(st.rows[id], since, Restriction(None)) {
      if id in Scan(run.prev, since).rows {
        ReadKeeps(run, since, id);
      } else {
        ReadAdds(run, since, id);
      }
    }
  }

  lemma ToolTiers(n: nat, at: int, since: int)
    ensures IsViolation(Paused(n, at), since, None) <==> at >= since
    ensures !IsViolation(Served(n, at), since, None)
  {
  }

  /** A second read over a log whose only Tier-1 successes the first read and the page both miss. */
  lemma CleanVerdict(run: Run, since: int, lost: nat)
    requires Valid(run) && run.Read? && |Log(run)| <= ROW_CAP
    requires NoneRetained(Scan(run.prev, since), since, None)
    requires Quiet(Log(run), PageStart(Log(run)), since)
    requires var st := Scan(run, since); st.complete || (st.coveredFrom.Some? && st.coveredFrom.value < since)
    requires lost < |Log(run)| && IsViolation(Log(run)[lost], since, None)
    ensures IsVerdict(Clean, Scan(run, since), since, None) && Recorded(run, since, None)
  {
    QuietPage(run, since);
    WindowIsSmall(Log(run), since);
    FitsUnderTheCap(run, since, WindowIds(Log(run), since));
  }

  /** `n` rows a time unit apart from `since` on, the first of them a Tier-1 success. */
  function Burst(n: nat, since: int): (rows: seq<Row>)
    ensures |rows| == n
    ensures forall i :: 0 <= i < n ==> rows[i] == (if i == 0 then Paused(i, since + i) else Served(i, since + i))
  {
    seq(n, i requires 0 <= i < n => if i == 0 then Paused(i, since + i) else Served(i, since + i))
  }

  lemma BurstShape(n: nat, since: int)
    requires PAGE_LIMIT < n
    ensures var log := Burst(n, since); UniqueIds(log) && StrictlyOrdered(log) && IsViolation(log[0], since, None)
    ensures forall i :: 0 < i < n ==> !IsViolation(Burst(n, since)[i], since, None)
  {
    var log := Burst(n, since);
    assert forall i :: 0 <= i < n ==> |log[i].id| == i;
    ToolTiers(0, since, since);
    forall i | 0 < i < n ensures !IsViolation(log[i], since, None) { ToolTiers(i, since + i, since); }
  }

  lemma ShortFirstRead(initial: seq<Row>, since: int)
    requires |initial| < PAGE_LIMIT && UniqueIds(initial) && OldestFirst(initial)
    requires Quiet(initial, 0, since)
    ensures var first := ReadNow(Start(initial));
      Scan(first, since).complete && NoneRetained(Scan(first, since), since, None)
  {
    var first := ReadNow(Start(initial));
    assert Log(first) == initial;
    assert Valid(first);
    ReadShort(first, since);
    QuietPage(first, since);
  }

  /** No Tier-1 success from the `from`-th row on. */
  ghost predicate Quiet(rows: seq<Row>, from: int, since: int) {
    forall i :: 0 <= i < |rows| && from <= i ==> !IsViolation(rows[i], since, None)
  }

  lemma QuietTail(initial: seq<Row>, rows: seq<Row>, since: int)
    requires |rows| > PAGE_LIMIT && Quiet(rows, |rows| - PAGE_LIMIT, since)
    ensures Quiet(initial + rows, PageStart(initial + rows), since)
  {
  }

  /** `_complete` is never reset. Whatever quiet log the first, complete page held, when more than a
      page of rows follows it before the next checkpoint, a Tier-1 success among those pushed off the
      page unread goes unseen under a clean verdict. */
  lemma {:induction false} CompleteThenBurst(initial: seq<Row>, rows: seq<Row>, since: int, lost: nat)
    requires |initial| < PAGE_LIMIT < |rows| && |initial| + |rows| <= ROW_CAP
    requires UniqueIds(initial) && OldestFirst(initial)
    requires UniqueIds(initial + rows) && OldestFirst(initial + rows)
    requires Quiet(initial, 0, since) && Quiet(rows, |rows| - PAGE_LIMIT, since)
    requires lost < |rows| - PAGE_LIMIT && IsViolation(rows[lost], since, None)
    ensures var run := TwoReads(initial, rows); Valid(run) && Seen(run) == |Log(run)| && Log(run) == initial + rows
    ensures IsVerdict(Clean, Scan(TwoReads(initial, rows), since), since, None)
    ensures Recorded(TwoReads(initial, rows), since, None)
  {
    var run := TwoReads(initial, rows);
    TwoReadsShape(initial, rows, since);
    ShortFirstRead(initial, since);
    CompleteStays(run, since);
    SecondReadIsClean(run, initial, rows, since, lost);
  }

  lemma SecondReadIsClean(run: Run, initial: seq<Row>, rows: seq<Row>, since: int, lost: nat)
    requires Valid(run) && run.Read? && Log(run) == initial + rows && |Log(run)| <= ROW_CAP && |rows| > PAGE_LIMIT
    requires NoneRetained(Scan(run.prev, since), since, None) && Scan(run, since).complete
    requires Quiet(rows, |rows| - PAGE_LIMIT, since) && lost < |rows| && IsViolation(rows[lost], since, None)
    ensures IsVerdict(Clean, Scan(run, since), since, None) && Recorded(run, since, None)
  {
    QuietTail(initial, rows, since);
    assert (initial + rows)[|initial| + lost] == rows[lost];
    CleanVerdict(run, since, |initial| + lost);
  }

  /** One such run, for every burst size: an empty first page and a strict clock. */
  lemma {:induction false} BurstHidesASuccess(n: nat, since: int)
    requires PAGE_LIMIT < n <= ROW_CAP
    ensures var run := TwoReads([], Burst(n, since)); Valid(run) && StrictlyOrdered(Log(run)) && Seen(run) == |Log(run)|
    ensures IsVerdict(Clean, Scan(TwoReads([], Burst(n, since)), since), since, None)
    ensures Recorded(TwoReads([], Burst(n, since)), since, None)
  {
    BurstShape(n, since);
    var log := Burst(n, since);
    assert [] + log == log;
    assert IsViolation(log[0], since, None);
    CompleteThenBurst([], log, since, 0);
  }

  /** A full page of quiet rows, then `n` rows sharing the newest time, the first a Tier-1 success. */
  function Tied(n: nat): (rows: seq<Row>)
    ensures |rows| == PAGE_LIMIT + n
    ensures forall i :: 0 <= i < |rows| ==>
      rows[i] == (if i == PAGE_LIMIT then Paused(i, TiedTime(i)) else Served(i, TiedTime(i)))
  {
    seq(PAGE_LIMIT + n, i requires 0 <= i < PAGE_LIMIT + n =>
      if i == PAGE_LIMIT then Paused(i, TiedTime(i)) else Served(i, TiedTime(i)))
  }

  function TiedTime(i: nat): nat {
    if i < PAGE_LIMIT then i else PAGE_LIMIT - 1
  }

  lemma TiedShape(n: nat)
    requires PAGE_LIMIT < n
    ensures var log := Tied(n); UniqueIds(log) && OldestFirst(log)
    ensures var log := Tied(n)[..PAGE_LIMIT]; UniqueIds(log) && OldestFirst(log)
    ensures Tied(n)[..PAGE_LIMIT] + Tied(n)[PAGE_LIMIT..] == Tied(n)
    ensures IsViolation(Tied(n)[PAGE_LIMIT], 50, None)
    ensures forall i :: 0 <= i < PAGE_LIMIT + n && i != PAGE_LIMIT ==> !IsViolation(Tied(n)[i], 50, None)
  {
    var log := Tied(n);
    assert forall i :: 0 <= i < |log| ==> |log[i].id| == i;
    ToolTiers(PAGE_LIMIT, TiedTime(PAGE_LIMIT), 50);
    forall i | 0 <= i < |log| && i != PAGE_LIMIT
      ensures !IsViolation(log[i], 50, None) { ToolTiers(i, TiedTime(i), 50); }
  }

  lemma TiedFirstRead(n: nat)
    requires PAGE_LIMIT < n
    ensures var first := ReadNow(Start(Tied(n)[..PAGE_LIMIT]));
      && Valid(first) && NoneRetained(Scan(first, 50), 50, None)
      && !Scan(first, 50).complete && Scan(first, 50).coveredFrom == Some(0)
        && Scan(first, 50).coveredUpto == Some(PAGE_LIMIT - 1)
  {
    var first := ReadNow(Start(Tied(n)[..PAGE_LIMIT]));
    TiedShape(n);
    assert Log(first) == Tied(n)[..PAGE_LIMIT];
    assert Valid(first);
    ReadSaturated(first, 50);
    QuietPage(first, 50);
  }

  /** The join's `<=`: more than a page of rows share the time the covered interval ends at, and a
      Tier-1 success among them goes unseen under a clean verdict though no page was complete. */
  lemma {:induction false} TieHidesASuccess(n: nat)
    requires PAGE_LIMIT < n <= ROW_CAP - PAGE_LIMIT
    ensures var run := TwoReads(Tied(n)[..PAGE_LIMIT], Tied(n)[PAGE_LIMIT..]);
      Valid(run) && NoBurstAfterComplete(run, 50) && Seen(run) == |Log(run)|
    ensures IsVerdict(Clean, Scan(TwoReads(Tied(n)[..PAGE_LIMIT], Tied(n)[PAGE_LIMIT..]), 50), 50, None)
    ensures Recorded(TwoReads(Tied(n)[..PAGE_LIMIT], Tied(n)[PAGE_LIMIT..]), 50, None)
  {
    var log := Tied(n);
    var run := TwoReads(log[..PAGE_LIMIT], log[PAGE_LIMIT..]);
    TiedShape(n);
    TiedFirstRead(n);
    TwoReadsShape(log[..PAGE_LIMIT], log[PAGE_LIMIT..], 50);
    assert Valid(run);
    ReadSaturated(run, 50);
    CleanVerdict(run, 50, PAGE_LIMIT);
  }

  lemma {:induction false} WindowIsSmall(log: seq<Row>, since: int)
    ensures |WindowIds(log, since)| <= |log|
  {
    if log != [] {
      var rest, last := log[..|log| - 1], log[|log| - 1];
      assert log == rest + [last];
      WindowIsSmall(rest, since);
      assert WindowIds(log, since) == WindowIds(rest, since) + if last.createdAt >= since then {last.id} else {};
    }
  }
}
