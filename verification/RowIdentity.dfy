/** What a row is known by, in the rows' own fields: which ids are random, when two rows are one, and what the
    comparison of two newest-first pages says of the rows themselves. */
module RowIdentity {
  import opened Wrappers
  import opened Json
  import opened WorldComparison
  import opened WorldAgreement
  import opened NewestPage
  import opened PageEvolution
  import opened ObservedPair
  import opened Filtering
  import MovementRules
  import Texts

  // ----- Random ids -----

  predicate NoHyphen(s: string) {
    forall c <- s :: c != '-'
  }

  predicate AllHex(s: string) {
    forall c <- s :: '0' <= c <= '9' || 'a' <= c <= 'f' || 'A' <= c <= 'F'
  }

  lemma {:induction false} HyphensDrop(a: string, b: string)
    ensures WithoutHyphens(a + b) == WithoutHyphens(a) + WithoutHyphens(b)
  {
    if a == [] {
      assert a + b == b;
    } else {
      assert (a + b)[0] == a[0] && (a + b)[1..] == a[1..] + b;
      HyphensDrop(a[1..], b);
    }
  }

  lemma {:induction false} NoneToDrop(s: string)
    requires NoHyphen(s)
    ensures WithoutHyphens(s) == s
  {
    if s != [] {
      assert s[0] in s && forall c <- s[1..] :: c in s;
      NoneToDrop(s[1..]);
      assert s == [s[0]] + s[1..];
    }
  }

  /** A hyphen anywhere in the text changes nothing. */
  lemma HyphensAreIgnored(a: string, b: string)
    ensures IsRandomUuid(a + "-" + b) <==> IsRandomUuid(a + b)
  {
    HyphensDrop(a + "-", b);
    HyphensDrop(a, "-");
    HyphensDrop(a, b);
    assert WithoutHyphens("-") == [];
  }

  /** Thirty-two characters with no hyphen are a random id exactly when all are hex digits, the thirteenth is the
      version 4 and the seventeenth is one of the variant's four digits. */
  lemma RandomIdIs(s: string)
    requires |s| == 32 && NoHyphen(s)
    ensures IsRandomUuid(s) <==> AllHex(s) && s[12] == '4' && s[16] in {'8', '9', 'a', 'b', 'A', 'B'}
  {
    NoneToDrop(s);
  }

  // ----- One row -----

  /** Neither the node nor any object it stands in, below the prefix, is relaxed. */
  ghost predicate Compared(prefix: Path, path: Path, relaxed: set<Path>) {
    forall n :: 0 < n <= |path| ==> prefix + path[..n] !in relaxed
  }

  /** Both rows have a node there or neither does, and two nodes that are not both objects are equal. */
  predicate SameNode(a: Value, b: Value, path: Path) {
    match (At(a, path), At(b, path))
    case (Some(x), Some(y)) => (x.Obj? && y.Obj?) || x == y
    case (None, None) => true
    case _ => false
  }

  ghost predicate SameWhereCompared(a: Value, b: Value, prefix: Path, relaxed: set<Path>) {
    forall path: Path :: Compared(prefix, path, relaxed) ==> SameNode(a, b, path)
  }

  lemma ComparedBelow(prefix: Path, key: string, path: Path, relaxed: set<Path>)
    ensures Compared(prefix, [key] + path, relaxed) <==>
      prefix + [key] !in relaxed && Compared(prefix + [key], path, relaxed)
  {
    var whole := [key] + path;
    forall n | 0 < n <= |path| ensures prefix + whole[..n + 1] == prefix + [key] + path[..n] {
    }
    assert whole[..1] == [key];
    if Compared(prefix, whole, relaxed) {
      forall n | 0 < n <= |path| ensures prefix + [key] + path[..n] !in relaxed {
        assert prefix + whole[..n + 1] !in relaxed;
      }
    }
    if prefix + [key] !in relaxed && Compared(prefix + [key], path, relaxed) {
      forall n | 0 < n <= |whole| ensures prefix + whole[..n] !in relaxed {
        if n > 1 {
          assert prefix + [key] + path[..n - 1] !in relaxed;
        }
      }
    }
  }

  /** A field either row has and that is not relaxed is in both, and the same there. */
  ghost predicate FieldsSame(a: map<string, Value>, b: map<string, Value>, prefix: Path, relaxed: set<Path>) {
    forall k | (k in a || k in b) && prefix + [k] !in relaxed ::
      k in a && k in b && SameWhereCompared(a[k], b[k], prefix + [k], relaxed)
  }

  lemma SameInAField(a: map<string, Value>, b: map<string, Value>, prefix: Path, relaxed: set<Path>, key: string)
    requires SameWhereCompared(Obj(a), Obj(b), prefix, relaxed) && prefix + [key] !in relaxed
    ensures key in a <==> key in b
    ensures key in a ==> SameWhereCompared(a[key], b[key], prefix + [key], relaxed)
  {
    ComparedBelow(prefix, key, [], relaxed);
    AtKey(a, key, []);
    AtKey(b, key, []);
    assert SameNode(Obj(a), Obj(b), [key] + []);
    if key in a {
      forall path: Path | Compared(prefix + [key], path, relaxed) ensures SameNode(a[key], b[key], path) {
        ComparedBelow(prefix, key, path, relaxed);
        AtKey(a, key, path);
        AtKey(b, key, path);
        assert SameNode(Obj(a), Obj(b), [key] + path);
      }
    }
  }

  lemma SameByField(a: map<string, Value>, b: map<string, Value>, prefix: Path, relaxed: set<Path>)
    ensures SameWhereCompared(Obj(a), Obj(b), prefix, relaxed) <==> FieldsSame(a, b, prefix, relaxed)
  {
    if SameWhereCompared(Obj(a), Obj(b), prefix, relaxed) {
      forall k | (k in a || k in b) && prefix + [k] !in relaxed
        ensures k in a && k in b && SameWhereCompared(a[k], b[k], prefix + [k], relaxed)
      {
        SameInAField(a, b, prefix, relaxed, k);
      }
    }
    if FieldsSame(a, b, prefix, relaxed) {
      forall path: Path | Compared(prefix, path, relaxed) ensures SameNode(Obj(a), Obj(b), path) {
        if path != [] {
          assert path == [path[0]] + path[1..];
          ComparedBelow(prefix, path[0], path[1..], relaxed);
        }
      }
    }
  }

  lemma {:induction false} SameAtALeaf(a: Value, b: Value, prefix: Path, relaxed: set<Path>)
    requires !(a.Obj? && b.Obj?)
    ensures SameWhereCompared(a, b, prefix, relaxed) <==> a == b
  {
    if SameWhereCompared(a, b, prefix, relaxed) {
      assert Compared(prefix, [], relaxed);
      assert SameNode(a, b, []);
    }
  }

  /** Two rows have one identity exactly when they are the same at every key path that is compared. */
  lemma {:induction false} IdentityTells(a: Value, b: Value, prefix: Path, relaxed: set<Path>)
    ensures Identity(a, prefix, relaxed) == Identity(b, prefix, relaxed) <==> SameWhereCompared(a, b, prefix, relaxed)
    decreases a
  {
    if a.Obj? && b.Obj? {
      var x, y := Identity(a, prefix, relaxed).fields, Identity(b, prefix, relaxed).fields;
      forall k | k in a.fields && k in b.fields && prefix + [k] !in relaxed
        ensures x[k] == y[k] <==> SameWhereCompared(a.fields[k], b.fields[k], prefix + [k], relaxed)
      {
        IdentityTells(a.fields[k], b.fields[k], prefix + [k], relaxed);
      }
      SameByField(a.fields, b.fields, prefix, relaxed);
      assert forall k :: k in x <==> k in a.fields && prefix + [k] !in relaxed;
      assert forall k :: k in y <==> k in b.fields && prefix + [k] !in relaxed;
      if FieldsSame(a.fields, b.fields, prefix, relaxed) {
        assert x == y;
      }
      if x == y {
        assert FieldsSame(a.fields, b.fields, prefix, relaxed);
      }
    } else {
      SameAtALeaf(a, b, prefix, relaxed);
    }
  }

  // ----- Two pages, in their rows' own fields -----

  predicate Named(row: Value, rowId: string, id: string) {
    row.Obj? && rowId in row.fields && row.fields[rowId] == Str(id)
  }

  predicate Dated(row: Value, time: string) {
    row.Obj? && "created_at" in row.fields && row.fields["created_at"] == Str(time)
  }

  predicate AllDated(rows: seq<Value>, times: seq<string>) {
    |times| == |rows| && forall i :: 0 <= i < |rows| ==> Dated(rows[i], times[i])
  }

  /** A page is short when it holds fewer rows than the recording did and than the call asked for. */
  lemma ShortPageIsReported(p: Pages, page: Page)
    requires p.IsResult(page)
    ensures PageBelowFloor in page.disagreements <==> |p.live| < |p.recorded| && |p.live| < p.limit
  {
    var order: seq<nat> :| p.OldestFirst(order) && page.disagreements == p.Floor() + p.Verdicts(order);
    if PageBelowFloor in p.Verdicts(order) {
      VerdictsAre(p, order, PageBelowFloor);
      var i :| i in order && PageBelowFloor in p.Verdict(i);
      VerdictNamesItsRow(p, i, PageBelowFloor);
    }
  }

  lemma {:induction false} TwinIsTheLast(live: seq<Value>, rowId: string, id: string, j: nat)
    requires j < |live| && Named(live[j], rowId, id) && !IsRandomUuid(id)
    requires forall k :: j < k < |live| ==> !Named(live[k], rowId, id)
    ensures Twin(live, id, rowId) == Some(live[j])
  {
    if j < |live| - 1 {
      TwinIsTheLast(live[..|live| - 1], rowId, id, j);
    }
  }

  /** A seeded row on both pages is reported changed exactly when it differs, at some path that is compared, from the
      last live row of its id. */
  lemma RowOnBothPages(p: Pages, page: Page, i: nat, j: nat, id: string)
    requires p.IsResult(page) && i < |p.recorded| && j < |p.live| && !IsRandomUuid(id)
    requires Named(p.recorded[i], p.rowId, id) && Named(p.live[j], p.rowId, id)
    requires forall k :: j < k < |p.live| ==> !Named(p.live[k], p.rowId, id)
    ensures SeededRowChanged(i) in page.disagreements <==>
      exists path: Path :: Compared([p.key], path, p.relaxed) && !SameNode(p.recorded[i], p.live[j], path)
    ensures SeededRowMissing(i) !in page.disagreements && i !in page.slidSeeded
  {
    TwinIsTheLast(p.live, p.rowId, id, j);
    ReportedIff(p, page, i);
    IdentityTells(p.recorded[i], p.live[j], [p.key], p.relaxed);
  }

  predicate OnPage(live: seq<Value>, rowId: string, id: string) {
    exists row <- live :: Named(row, rowId, id)
  }

  /** A recorded seeded row, older than row `i` or as old and listed before it, that the live page holds. */
  predicate OlderSurvives(p: Pages, times: seq<string>, i: nat, k: nat, id: string)
    requires |times| == |p.recorded| && i < |times|
  {
    && k < |times| && Named(p.recorded[k], p.rowId, id) && !IsRandomUuid(id) && OnPage(p.live, p.rowId, id)
    && (Texts.Less(times[k], times[i]) || (times[k] == times[i] && k < i))
  }

  lemma TwinIsOnPage(p: Pages, k: nat, id: string)
    requires k < |p.recorded| && Named(p.recorded[k], p.rowId, id) && !IsRandomUuid(id)
    ensures p.Seeded(k) && (p.TwinOf(k).None? <==> !OnPage(p.live, p.rowId, id))
  {
    TwinIsARow(p.live, id, p.rowId);
  }

  lemma SlidesByDate(p: Pages, times: seq<string>, i: nat, id: string)
    requires AllDated(p.recorded, times) && i < |p.recorded|
    requires Named(p.recorded[i], p.rowId, id) && !IsRandomUuid(id) && !OnPage(p.live, p.rowId, id)
    ensures p.Seeded(i) && p.TwinOf(i).None?
    ensures p.Slides(i) <==>
      |p.live| >= p.limit && forall k: nat, other: string :: !OlderSurvives(p, times, i, k, other)
  {
    TwinIsOnPage(p, i, id);
    if p.Slides(i) {
      forall k: nat, other: string ensures !OlderSurvives(p, times, i, k, other) {
        if OlderSurvives(p, times, i, k, other) {
          TwinIsOnPage(p, k, other);
          assert Older(p.recorded, k, i);
        }
      }
    }
    if |p.live| >= p.limit && forall k: nat, other: string :: !OlderSurvives(p, times, i, k, other) {
      forall k: nat | k < |p.recorded| && p.Seeded(k) && (k == i || Older(p.recorded, k, i))
        ensures p.TwinOf(k).None?
      {
        TwinIsOnPage(p, k, p.recorded[k].fields[p.rowId].text);
        assert k != i ==> !OlderSurvives(p, times, i, k, p.recorded[k].fields[p.rowId].text);
      }
    }
  }

  /** A seeded row that left the page has slid off it when the page is full and no older seeded row is still there;
      otherwise it is reported missing. */
  lemma RowOffThePage(p: Pages, page: Page, times: seq<string>, i: nat, id: string)
    requires p.IsResult(page) && AllDated(p.recorded, times) && i < |p.recorded|
    requires Named(p.recorded[i], p.rowId, id) && !IsRandomUuid(id) && !OnPage(p.live, p.rowId, id)
    ensures i in page.slidSeeded <==>
      |p.live| >= p.limit && forall k: nat, other: string :: !OlderSurvives(p, times, i, k, other)
    ensures SeededRowMissing(i) in page.disagreements <==> i !in page.slidSeeded
    ensures SeededRowChanged(i) !in page.disagreements
  {
    SlidesByDate(p, times, i, id);
    ReportedIff(p, page, i);
  }

  /** A traffic row, one with a random id, has slid when the page is full and every row on it is newer. */
  lemma TrafficOffThePage(p: Pages, page: Page, times: seq<string>, i: nat, id: string, time: string)
    requires p.IsResult(page) && AllDated(p.live, times) && i < |p.recorded|
    requires Named(p.recorded[i], p.rowId, id) && IsRandomUuid(id) && Dated(p.recorded[i], time)
    ensures i in page.slidTraffic <==>
      |p.live| >= p.limit && p.live != [] && forall k :: 0 <= k < |times| ==> Texts.Less(time, times[k])
  {
    if i in page.slidTraffic {
      forall k | 0 <= k < |times| ensures Texts.Less(time, times[k]) {
        assert p.live[k] in p.live;
      }
    }
  }

  // ----- Minted rows, counted -----

  predicate Minted(row: Value) {
    row.Obj? && "id" in row.fields && row.fields["id"].Str? && IsRandomUuid(row.fields["id"].text)
  }

  /** The rows with a random id that read as this one does wherever rows are compared. */
  ghost function Alike(rows: seq<Value>, row: Value, prefix: Path, relaxed: set<Path>): set<nat> {
    set i: nat | i < |rows| && Minted(rows[i]) && SameWhereCompared(rows[i], row, prefix, relaxed)
  }

  function Next(s: set<nat>): (next: set<nat>)
    ensures forall y :: y in next <==> y > 0 && y - 1 in s
  {
    var next := set i <- s :: i + 1;
    assert forall x :: x in s ==> x + 1 in next;
    next
  }

  lemma {:induction false} NextCount(s: set<nat>)
    ensures |Next(s)| == |s|
  {
    if s != {} {
      var x :| x in s;
      NextCount(s - {x});
      assert Next(s) == Next(s - {x}) + {x + 1};
    }
  }

  lemma AlikeByFirst(rows: seq<Value>, row: Value, prefix: Path, relaxed: set<Path>)
    requires rows != []
    ensures Alike(rows, row, prefix, relaxed) == Next(Alike(rows[1..], row, prefix, relaxed))
      + if MintedRow(rows[0]) && SameWhereCompared(rows[0], row, prefix, relaxed) then {0} else {}
  {
    forall i: nat | 0 < i < |rows| ensures rows[i] == rows[1..][i - 1] {
    }
  }

  /** The tally of identities counts, for each row, the minted rows that are alike. */
  lemma {:induction false} IdentitiesCount(rows: seq<Value>, row: Value, prefix: Path, relaxed: set<Path>)
    ensures MintedIdentities(rows, prefix, relaxed)[Identity(row, prefix, relaxed)]
      == |Alike(rows, row, prefix, relaxed)|
  {
    if rows != [] {
      IdentitiesCount(rows[1..], row, prefix, relaxed);
      IdentityTells(rows[0], row, prefix, relaxed);
      AlikeByFirst(rows, row, prefix, relaxed);
      NextCount(Alike(rows[1..], row, prefix, relaxed));
    }
  }

  lemma {:induction false} IdentityOfARow(rows: seq<Value>, prefix: Path, relaxed: set<Path>, v: Value)
    requires v in MintedIdentities(rows, prefix, relaxed)
    ensures exists row <- rows :: Minted(row) && Identity(row, prefix, relaxed) == v
  {
    if !(MintedRow(rows[0]) && Identity(rows[0], prefix, relaxed) == v) {
      IdentityOfARow(rows[1..], prefix, relaxed, v);
    }
  }

  ghost predicate MintedRowsKept(canned: seq<Value>, live: seq<Value>, row: Value, prefix: Path, relaxed: set<Path>) {
    Minted(row) ==> |Alike(canned, row, prefix, relaxed)| <= |Alike(live, row, prefix, relaxed)|
  }

  /** The minted rows are covered exactly when each has at least as many live rows like it as recorded ones. */
  lemma CoveredByCount(canned: seq<Value>, live: seq<Value>, prefix: Path, relaxed: set<Path>)
    ensures MintedIdentities(canned, prefix, relaxed) <= MintedIdentities(live, prefix, relaxed) <==>
      forall row <- canned :: MintedRowsKept(canned, live, row, prefix, relaxed)
  {
    var mine, theirs := MintedIdentities(canned, prefix, relaxed), MintedIdentities(live, prefix, relaxed);
    if mine <= theirs {
      forall row | row in canned ensures MintedRowsKept(canned, live, row, prefix, relaxed) {
        IdentitiesCount(canned, row, prefix, relaxed);
        IdentitiesCount(live, row, prefix, relaxed);
      }
    }
    if forall row <- canned :: MintedRowsKept(canned, live, row, prefix, relaxed) {
      forall v | v in mine ensures mine[v] <= theirs[v] {
        IdentityOfARow(canned, prefix, relaxed, v);
        var row :| row in canned && Minted(row) && Identity(row, prefix, relaxed) == v;
        IdentitiesCount(canned, row, prefix, relaxed);
        IdentitiesCount(live, row, prefix, relaxed);
      }
    }
  }

  /** A list whose rows' ids move by minting loses none of its minted rows: clocks, free text, cut nodes and every
      field with a rule of its own aside. */
  lemma RowsCoveredByCount(p: Policy, path: Path, canned: seq<Value>, live: seq<Value>)
    ensures MovementRules.RowsCovered(p, path, canned, live) <==>
      (path + ["id"] in p.honest && path + ["id"] !in p.volatile && p.honest[path + ["id"]].rule == MintedId ==>
        forall row <- canned ::
          MintedRowsKept(canned, live, row, path, p.volatile + p.unbounded + p.shapeOnly + p.honest.Keys))
  {
    assert p.Relaxed() == p.volatile + p.unbounded + p.shapeOnly + p.honest.Keys;
    CoveredByCount(canned, live, path, p.Relaxed());
  }

  // ----- Rows raised after the recording -----

  /** A live row was raised since the recording when its id is random and it differs, where rows are compared, from
      every recorded row. */
  lemma RaisedIs(recorded: seq<Value>, row: Value, key: string, relaxed: set<Path>)
    ensures Raised(row, Known(recorded, key, relaxed), key, relaxed) <==>
      Minted(row) && forall other <- recorded :: !SameWhereCompared(other, row, [key], relaxed)
  {
    forall other | other in recorded
      ensures Identity(other, [key], relaxed) == Identity(row, [key], relaxed) <==>
        SameWhereCompared(other, row, [key], relaxed)
    {
      IdentityTells(other, row, [key], relaxed);
    }
    if Identity(row, [key], relaxed) in Known(recorded, key, relaxed) {
      var other :| other in recorded && Identity(other, [key], relaxed) == Identity(row, [key], relaxed);
    }
  }

  /** Of the live rows, those not raised are kept, in order. */
  lemma {:induction false} KeptInOrder(live: seq<Value>, known: set<Value>, key: string, relaxed: set<Path>)
    ensures PickedFrom(live, Kept(live, known, key, relaxed),
      (row: Value) => if Raised(row, known, key, relaxed) then None else Some(row))
  {
    var pick := (row: Value) => if Raised(row, known, key, relaxed) then None else Some(row);
    if live == [] {
      NothingPicked(pick);
    } else {
      var init, last := live[..|live| - 1], live[|live| - 1];
      KeptInOrder(init, known, key, relaxed);
      OneMorePicked(init, Kept(init, known, key, relaxed), pick, last);
      assert live == init + [last];
    }
  }
}
