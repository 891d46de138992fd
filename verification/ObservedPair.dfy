/** `observed_pair` of evals/fixture_drift.py: the rows only one of two readings can hold, set aside
    before the walk. */
module ObservedPair {
  import opened Wrappers
  import opened Json
  import opened WorldComparison
  import opened NewestPage
  import opened PageEvolution
  import WorldAgreement

  type Payload = map<string, Value>

  /** Which list of a tool's answer the platform raises rows in, which one is a newest-first page, and what
      identifies a row there. */
  datatype Listing = Listing(raised: Option<string>, page: Option<string>, rowId: string)

  function RowsAt(payload: Payload, key: Option<string>): Option<seq<Value>> {
    if key.Some? && key.value in payload && payload[key.value].Arr? then Some(payload[key.value].items) else None
  }

  // ----- Rows raised after the recording -----

  function Known(recorded: seq<Value>, key: string, relaxed: set<Path>): set<Value> {
    set row <- recorded :: Identity(row, [key], relaxed)
  }

  /** A minted row no recorded row has the identity of. */
  predicate Raised(row: Value, known: set<Value>, key: string, relaxed: set<Path>) {
    MintedRow(row) && Identity(row, [key], relaxed) !in known
  }

  function Kept(live: seq<Value>, known: set<Value>, key: string, relaxed: set<Path>): seq<Value> {
    if live == [] then []
    else
      var last := live[|live| - 1];
      Kept(live[..|live| - 1], known, key, relaxed) + if Raised(last, known, key, relaxed) then [] else [last]
  }

  method SplitRaised(recorded: seq<Value>, live: seq<Value>, key: string, relaxed: set<Path>)
    returns (kept: seq<Value>, raised: seq<Value>)
    ensures kept == Kept(live, Known(recorded, key, relaxed), key, relaxed)
    ensures forall row :: row in raised <==> row in live && Raised(row, Known(recorded, key, relaxed), key, relaxed)
    ensures raised == [] ==> kept == live
  {
    var known := Known(recorded, key, relaxed);
    kept, raised := [], [];
    for i := 0 to |live|
      invariant kept == Kept(live[..i], known, key, relaxed)
      invariant forall row :: row in raised <==> row in live[..i] && Raised(row, known, key, relaxed)
      invariant raised == [] ==> kept == live[..i]
    {
      assert live[..i + 1] == live[..i] + [live[i]] && live[..i + 1][..i] == live[..i];
      if Raised(live[i], known, key, relaxed) {
        raised := raised + [live[i]];
      } else {
        kept := kept + [live[i]];
      }
    }
    assert live[..|live|] == live;
  }

  lemma {:induction false} MintedAppend(rows: seq<Value>, row: Value, prefix: Path, relaxed: set<Path>)
    ensures MintedIdentities(rows + [row], prefix, relaxed) ==
      MintedIdentities(rows, prefix, relaxed)
      + if MintedRow(row) then multiset{Identity(row, prefix, relaxed)} else multiset{}
  {
    if rows == [] {
      assert [row][1..] == [];
      assert rows + [row] == [row];
    } else {
      assert (rows + [row])[1..] == rows[1..] + [row];
      MintedAppend(rows[1..], row, prefix, relaxed);
    }
  }

  /** What is set aside only ever has identities no recorded row has. */
  lemma {:induction false} RaisedAreUnknown(
      live: seq<Value>, known: set<Value>, key: string, relaxed: set<Path>, id: Value)
    requires id in known
    ensures MintedIdentities(Kept(live, known, key, relaxed), [key], relaxed)[id]
      == MintedIdentities(live, [key], relaxed)[id]
  {
    if live != [] {
      var init, last := live[..|live| - 1], live[|live| - 1];
      assert live == init + [last];
      RaisedAreUnknown(init, known, key, relaxed, id);
      MintedAppend(init, last, [key], relaxed);
      if Raised(last, known, key, relaxed) {
        assert Kept(live, known, key, relaxed) == Kept(init, known, key, relaxed);
      } else {
        MintedAppend(Kept(init, known, key, relaxed), last, [key], relaxed);
      }
    }
  }

  lemma {:induction false} RecordedAreKnown(recorded: seq<Value>, key: string, relaxed: set<Path>, id: Value)
    requires id in MintedIdentities(recorded, [key], relaxed)
    ensures id in Known(recorded, key, relaxed)
  {
    assert recorded == [recorded[0]] + recorded[1..];
    if !(MintedRow(recorded[0]) && Identity(recorded[0], [key], relaxed) == id) {
      RecordedAreKnown(recorded[1..], key, relaxed, id);
      assert forall row <- recorded[1..] :: row in recorded;
    }
  }

  /** Setting raised rows aside hides no missing minted row: the walk finds the recorded minted rows the live list
      lacks exactly as it would with them left in. */
  lemma RaisedRowsHideNoMissingRow(p: Policy, recorded: seq<Value>, live: seq<Value>, key: string, at: seq<Step>)
    requires PolicyPath(at) == [key]
    ensures MintedDrifts(p, recorded, Kept(live, Known(recorded, key, p.Relaxed()), key, p.Relaxed()), at)
      == MintedDrifts(p, recorded, live, at)
  {
    var relaxed := p.Relaxed();
    var known := Known(recorded, key, relaxed);
    var ids, kept, all := MintedIdentities(recorded, [key], relaxed),
      MintedIdentities(Kept(live, known, key, relaxed), [key], relaxed), MintedIdentities(live, [key], relaxed);
    forall id ensures (ids - kept)[id] == (ids - all)[id] {
      if id in ids {
        RecordedAreKnown(recorded, key, relaxed, id);
        RaisedAreUnknown(live, known, key, relaxed, id);
      }
    }
    assert ids - kept == ids - all;
  }

  // ----- The pair -----

  datatype Pair = Pair(recorded: Payload, live: Payload, raised: seq<Value>, page: Option<Page>)
  {
    function Disagreements(): seq<Disagreement> {
      if page.Some? then page.value.disagreements else []
    }
  }

  /** The rows of a list whose positions are not set aside. */
  function Without(rows: seq<Value>, gone: set<nat>): seq<Value> {
    if rows == [] then []
    else Without(rows[..|rows| - 1], gone) + if |rows| - 1 in gone then [] else [rows[|rows| - 1]]
  }

  function OffThePage(page: Page): set<nat> {
    page.slidSeeded + page.slidTraffic
  }

  /** What the page comparison leaves of both payloads: an empty recorded list empties the live one too. */
  function PageSetAside(
      recorded: Payload, live: Payload, key: string, rows: seq<Value>, page: Page): (Payload, Payload) {
    if OffThePage(page) == {} then (recorded, live)
    else
      var left := Without(rows, OffThePage(page));
      (recorded[key := Arr(left)], if left == [] then live[key := Arr([])] else live)
  }

  /** The live payload without the raised rows, where both payloads hold the list. */
  ghost predicate RaisedAside(
      out: Payload, raised: seq<Value>, listing: Listing, recorded: Payload, live: Payload, relaxed: set<Path>) {
    var r, l := RowsAt(recorded, listing.raised), RowsAt(live, listing.raised);
    if r.Some? && l.Some? then
      var key, known := listing.raised.value, Known(r.value, listing.raised.value, relaxed);
      && (forall row :: row in raised <==> row in l.value && Raised(row, known, key, relaxed))
      && out == if raised == [] then live else live[key := Arr(Kept(l.value, known, key, relaxed))]
    else raised == [] && out == live
  }

  /** The page compared, and its slid rows set aside, after the raised ones. */
  ghost predicate PageAside(
      pair: Pair, live: Payload, listing: Listing, limit: Option<int>, recorded: Payload, whole: Payload,
      relaxed: set<Path>) {
    var pr, pl := RowsAt(recorded, listing.page), RowsAt(whole, listing.page);
    if pr.Some? && pl.Some? && limit.Some? then
      && pair.page.Some?
      && Pages(pr.value, pl.value, listing.page.value, listing.rowId, limit.value, relaxed).IsResult(pair.page.value)
      && (pair.recorded, pair.live) == PageSetAside(recorded, live, listing.page.value, pr.value, pair.page.value)
    else pair.page.None? && pair.recorded == recorded && pair.live == live
  }

  ghost predicate Observes(
      pair: Pair, listing: Listing, limit: Option<int>, recorded: Payload, live: Payload, relaxed: set<Path>) {
    exists kept :: RaisedAside(kept, pair.raised, listing, recorded, live, relaxed)
      && PageAside(pair, kept, listing, limit, recorded, live, relaxed)
  }

  method KeepRows(rows: seq<Value>, gone: set<nat>) returns (left: seq<Value>)
    ensures left == Without(rows, gone)
  {
    left := [];
    for i := 0 to |rows|
      invariant left == Without(rows[..i], gone)
    {
      assert rows[..i + 1][..i] == rows[..i];
      if i !in gone {
        left := left + [rows[i]];
      }
    }
    assert rows[..|rows|] == rows;
  }

  method ObservedPairOf(listing: Listing, limit: Option<int>, recorded: Payload, live: Payload, relaxed: set<Path>)
    returns (pair: Pair)
    ensures Observes(pair, listing, limit, recorded, live, relaxed)
  {
    var live1, raised := SetRaisedAside(listing, recorded, live, relaxed);
    var pr, pl := RowsAt(recorded, listing.page), RowsAt(live, listing.page);
    if !(pr.Some? && pl.Some? && limit.Some?) {
      return Pair(recorded, live1, raised, None);
    }
    var key := listing.page.value;
    var page := NewestPageOf(Pages(pr.value, pl.value, key, listing.rowId, limit.value, relaxed));
    var recordedOut, liveOut := SetPageAside(recorded, live1, key, pr.value, page);
    return Pair(recordedOut, liveOut, raised, Some(page));
  }

  method SetRaisedAside(listing: Listing, recorded: Payload, live: Payload, relaxed: set<Path>)
    returns (out: Payload, raised: seq<Value>)
    ensures RaisedAside(out, raised, listing, recorded, live, relaxed)
  {
    out, raised := live, [];
    var r, l := RowsAt(recorded, listing.raised), RowsAt(live, listing.raised);
    if r.Some? && l.Some? {
      var kept;
      kept, raised := SplitRaised(r.value, l.value, listing.raised.value, relaxed);
      if raised != [] {
        out := live[listing.raised.value := Arr(kept)];
      }
    }
  }

  method SetPageAside(recorded: Payload, live: Payload, key: string, rows: seq<Value>, page: Page)
    returns (recordedOut: Payload, liveOut: Payload)
    ensures (recordedOut, liveOut) == PageSetAside(recorded, live, key, rows, page)
  {
    recordedOut, liveOut := recorded, live;
    if OffThePage(page) != {} {
      var left := KeepRows(rows, OffThePage(page));
      recordedOut := recorded[key := Arr(left)];
      if left == [] {
        liveOut := live[key := Arr([])];
      }
    }
  }

  // ----- One reading, twice -----

  /** Rows of one stable id read the same. */
  ghost predicate OneIdentityPerId(rows: seq<Value>, key: string, rowId: string, relaxed: set<Path>) {
    forall a <- rows, b <- rows :: Stable(a, rowId).Some? && Stable(a, rowId) == Stable(b, rowId)
      ==> Identity(a, [key], relaxed) == Identity(b, [key], relaxed)
  }

  lemma OwnTwin(rows: seq<Value>, i: nat, rowId: string)
    requires i < |rows| && Stable(rows[i], rowId).Some?
    ensures var twin := Twin(rows, Stable(rows[i], rowId).value, rowId);
      twin.Some? && twin.value in rows && Stable(twin.value, rowId) == Stable(rows[i], rowId)
  {
    TwinIsARow(rows, Stable(rows[i], rowId).value, rowId);
    assert rows[i] in rows;
  }

  lemma OwnPage(p: Pages, page: Page)
    requires p.recorded == p.live && p.IsResult(page)
    ensures OffThePage(page) == {}
    ensures page.disagreements == [] <==> OneIdentityPerId(p.recorded, p.key, p.rowId, p.relaxed)
  {
    forall i: nat | p.Seeded(i) ensures !p.Slides(i) && !p.Missing(i) {
      OwnTwin(p.recorded, i, p.rowId);
    }
    forall i: nat ensures !p.SlidTraffic(i) {
      if i < |p.recorded| {
        assert p.recorded[i] in p.live;
      }
    }
    if page.disagreements == [] {
      QuietMeansUnchanged(p, page);
    } else {
      LoudMeansChanged(p, page);
    }
  }

  lemma QuietMeansUnchanged(p: Pages, page: Page)
    requires p.recorded == p.live && p.IsResult(page) && page.disagreements == []
    ensures OneIdentityPerId(p.recorded, p.key, p.rowId, p.relaxed)
  {
    forall a, b | a in p.recorded && b in p.recorded && Stable(a, p.rowId).Some?
      && Stable(a, p.rowId) == Stable(b, p.rowId)
      ensures Identity(a, [p.key], p.relaxed) == Identity(b, [p.key], p.relaxed)
    {
      var i :| 0 <= i < |p.recorded| && p.recorded[i] == a;
      var j :| 0 <= j < |p.recorded| && p.recorded[j] == b;
      assert p.Seeded(i) && p.Seeded(j);
      ReportedIff(p, page, i);
      ReportedIff(p, page, j);
      OwnTwin(p.recorded, i, p.rowId);
    }
  }

  lemma LoudMeansChanged(p: Pages, page: Page)
    requires p.recorded == p.live && p.IsResult(page) && page.disagreements != []
    ensures !OneIdentityPerId(p.recorded, p.key, p.rowId, p.relaxed)
  {
    var order: seq<nat> :| p.OldestFirst(order) && page.disagreements == p.Floor() + p.Verdicts(order);
    var d := page.disagreements[0];
    assert d in p.Verdicts(order);
    VerdictsAre(p, order, d);
    var i :| i in order && d in p.Verdict(i);
    OwnTwin(p.recorded, i, p.rowId);
    assert p.Changed(i) && p.recorded[i] in p.recorded;
  }

  lemma OwnRowsAreKnown(rows: seq<Value>, key: string, relaxed: set<Path>)
    ensures forall row <- rows :: !Raised(row, Known(rows, key, relaxed), key, relaxed)
  {
  }

  /** A reading paired with itself comes back whole, with no row raised or set aside, and the walk over the
      pair is silent; the rows agree one by one exactly when no stable id names two different rows. */
  lemma SameReadingIsWhole(pair: Pair, listing: Listing, limit: Option<int>, reading: Payload, p: Policy)
    requires Observes(pair, listing, limit, reading, reading, p.Relaxed())
    ensures pair.recorded == reading && pair.live == reading && pair.raised == []
    ensures Walked(p, Obj(pair.recorded), Obj(pair.live), [], false) == []
    ensures pair.page.Some? ==>
      (pair.Disagreements() == [] <==>
        OneIdentityPerId(RowsAt(reading, listing.page).value, listing.page.value, listing.rowId, p.Relaxed()))
  {
    var kept :| RaisedAside(kept, pair.raised, listing, reading, reading, p.Relaxed())
      && PageAside(pair, kept, listing, limit, reading, reading, p.Relaxed());
    NothingRaised(kept, pair.raised, listing, reading, p.Relaxed());
    if pair.page.Some? {
      var page := RowsAt(reading, listing.page).value;
      OwnPage(Pages(page, page, listing.page.value, listing.rowId, limit.value, p.Relaxed()), pair.page.value);
    }
    WorldAgreement.SelfIsClean(p, Obj(reading), [], false);
  }

  lemma NothingRaised(kept: Payload, raised: seq<Value>, listing: Listing, reading: Payload, relaxed: set<Path>)
    requires RaisedAside(kept, raised, listing, reading, reading, relaxed)
    ensures raised == [] && kept == reading
  {
    var rows := RowsAt(reading, listing.raised);
    if rows.Some? {
      OwnRowsAreKnown(rows.value, listing.raised.value, relaxed);
      assert forall row :: row !in raised;
      NoneIsEmpty(raised);
    }
  }

  lemma NoneIsEmpty(rows: seq<Value>)
    requires forall row :: row !in rows
    ensures rows == []
  {
    forall row ensures multiset(rows)[row] == 0 {
      assert row !in rows;
    }
    assert multiset(rows) == multiset{};
    assert |multiset(rows)| == |rows|;
  }
}
