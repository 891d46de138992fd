/** What the page comparison is worth: it classifies every recorded seeded row exactly once, and
    over every honest evolution of a world it is silent and sets aside exactly the rows that left
    the page. */
module PageEvolution {
  import opened Json
  import opened WorldComparison
  import opened NewestPage
  import Texts

  // ----- Every seeded row is classified once -----

  lemma {:induction false} VerdictsAre(p: Pages, order: seq<nat>, d: Disagreement)
    requires forall i <- order :: p.Seeded(i)
    ensures d in p.Verdicts(order) <==> exists i <- order :: d in p.Verdict(i)
  {
    if order != [] {
      var init, last := order[..|order| - 1], order[|order| - 1];
      assert order == init + [last];
      VerdictsAre(p, init, d);
    }
  }

  lemma VerdictNamesItsRow(p: Pages, k: nat, d: Disagreement)
    requires p.Seeded(k)
    ensures d in p.Verdict(k) <==>
      (d == SeededRowMissing(k) && p.Missing(k)) || (d == SeededRowChanged(k) && p.Changed(k))
  {
  }

  lemma InVerdicts(p: Pages, order: seq<nat>, i: nat)
    requires p.OldestFirst(order) && p.Seeded(i)
    ensures SeededRowMissing(i) in p.Verdicts(order) <==> p.Missing(i)
    ensures SeededRowChanged(i) in p.Verdicts(order) <==> p.Changed(i)
    ensures PageBelowFloor !in p.Verdicts(order)
  {
    forall d | d in [SeededRowMissing(i), SeededRowChanged(i), PageBelowFloor] {
      VerdictsAre(p, order, d);
    }
    forall k, d | k in order { VerdictNamesItsRow(p, k, d); }
    VerdictNamesItsRow(p, i, SeededRowMissing(i));
    VerdictNamesItsRow(p, i, SeededRowChanged(i));
  }

  lemma ReportedIff(p: Pages, page: Page, i: nat)
    requires p.IsResult(page) && p.Seeded(i)
    ensures SeededRowMissing(i) in page.disagreements <==> p.Missing(i)
    ensures SeededRowChanged(i) in page.disagreements <==> p.Changed(i)
    ensures PageBelowFloor in page.disagreements <==> p.BelowFloor()
  {
    var order: seq<nat> :| p.OldestFirst(order) && page.disagreements == p.Floor() + p.Verdicts(order);
    InVerdicts(p, order, i);
  }

  datatype Finding = Slid | Gone | Different | Unchanged

  /** What the page says of a recorded seeded row. */
  ghost predicate Says(p: Pages, page: Page, i: nat, finding: Finding)
    requires p.Seeded(i)
  {
    match finding
    case Slid => i in page.slidSeeded
    case Gone => SeededRowMissing(i) in page.disagreements
    case Different => SeededRowChanged(i) in page.disagreements
    case Unchanged =>
      && p.TwinOf(i).Some?
        && Identity(p.recorded[i], [p.key], p.relaxed) == Identity(p.TwinOf(i).value, [p.key], p.relaxed)
  }

  lemma ExactlyOneClass(p: Pages, page: Page, i: nat)
    requires p.IsResult(page) && p.Seeded(i)
    ensures exists finding :: Says(p, page, i, finding)
    ensures forall a, b :: Says(p, page, i, a) && Says(p, page, i, b) ==> a == b
  {
    ReportedIff(p, page, i);
    var finding := if p.TwinOf(i).None? then (if p.Slides(i) then Slid else Gone)
      else if p.Changed(i) then Different else Unchanged;
    assert Says(p, page, i, finding);
    assert p.Slides(i) ==> p.TwinOf(i).None?;
  }

  /** The slid rows are closed under age, nothing slides off a page that is not full, and a gap above
      a surviving older row is always reported. */
  lemma SlidIsAnAgePrefix(p: Pages, page: Page, i: nat, j: nat)
    requires p.IsResult(page) && p.Seeded(i) && p.Seeded(j) && Older(p.recorded, j, i)
    ensures i in page.slidSeeded ==> j in page.slidSeeded && p.LiveFull()
    ensures p.TwinOf(j).Some? && p.TwinOf(i).None? ==> SeededRowMissing(i) in page.disagreements
  {
    ReportedIff(p, page, i);
    if p.Slides(i) {
      forall k: nat | k < |p.recorded| && p.Seeded(k) && (k == j || Older(p.recorded, k, j))
        ensures p.TwinOf(k).None?
      {
        OlderIsAnOrder(p.recorded, k, j, i);
      }
    }
  }

  // ----- Honest evolutions -----

  ghost predicate NewestFirst(world: seq<Value>) {
    forall i, j :: 0 <= i < j < |world| ==> Texts.Leq(CreatedAt(world[j]), CreatedAt(world[i]))
  }

  function Newest(world: seq<Value>, limit: nat): seq<Value> {
    if |world| <= limit then world else world[..limit]
  }

  /** Rows are only added; traffic rows stay as they were; seeded rows may be re-timestamped, but
      together: each keeps its id and identity, and they keep their order and distinct times. */
  datatype Evolution = Evolution(
    before: seq<Value>, after: seq<Value>, place: seq<nat>, key: string, rowId: string, relaxed: set<Path>)
  {
    /** All of it but the identities. */
    ghost predicate Grown() {
      && NewestFirst(before) && NewestFirst(after)
      && |place| == |before|
      && (forall i :: 0 <= i < |place| ==> place[i] < |after|)
      && (forall i, j :: 0 <= i < j < |place| ==> place[i] != place[j])
      && (forall i :: 0 <= i < |before| ==> Carried(i))
      && (forall i, j :: 0 <= i < |before| && 0 <= j < |before| && i != j ==> InStep(i, j))
      && (forall a, b ::
        0 <= a < b < |after| && Stable(after[a], rowId).Some? ==> Stable(after[a], rowId) != Stable(after[b], rowId))
    }

    ghost predicate Honest() {
      Grown() && forall i :: 0 <= i < |before| ==> SameIdentity(i)
    }

    ghost predicate SameIdentity(i: nat)
      requires i < |before| && |place| == |before| && place[i] < |after|
    {
      Identity(after[place[i]], [key], relaxed) == Identity(before[i], [key], relaxed)
    }

    ghost predicate Carried(i: nat)
      requires i < |before| && |place| == |before| && place[i] < |after|
    {
      if Stable(before[i], rowId).None? then after[place[i]] == before[i]
      else Stable(after[place[i]], rowId) == Stable(before[i], rowId)
    }

    /** Two seeded rows have different times, in the same order before and after. */
    ghost predicate InStep(i: nat, j: nat)
      requires i < |before| && j < |before| && |place| == |before| && place[i] < |after| && place[j] < |after|
    {
      Stable(before[i], rowId).Some? && Stable(before[j], rowId).Some? ==>
        && CreatedAt(before[i]) != CreatedAt(before[j])
        && (Texts.Less(CreatedAt(before[i]), CreatedAt(before[j])) <==>
          Texts.Less(CreatedAt(after[place[i]]), CreatedAt(after[place[j]])))
    }

    function Read(limit: nat): Pages {
      Pages(Newest(before, limit), Newest(after, limit), key, rowId, limit, relaxed)
    }
  }

  lemma OnlyAdded(e: Evolution)
    requires e.Honest()
    ensures |e.before| <= |e.after|
  {
    var slots := set i | 0 <= i < |e.place| :: e.place[i];
    InjectiveSize(e.place, |e.place|);
    RangeSize(slots, |e.after|);
  }

  lemma {:induction false} InjectiveSize(place: seq<nat>, n: nat)
    requires n <= |place| && forall i, j :: 0 <= i < j < |place| ==> place[i] != place[j]
    ensures |set i | 0 <= i < n :: place[i]| == n
  {
    if n > 0 {
      InjectiveSize(place, n - 1);
      assert (set i | 0 <= i < n :: place[i]) == (set i | 0 <= i < n - 1 :: place[i]) + {place[n - 1]};
    }
  }

  lemma {:induction false} RangeSize(s: set<nat>, n: nat)
    requires forall x <- s :: x < n
    ensures |s| <= n
  {
    if n > 0 {
      RangeSize(s - {n - 1}, n - 1);
    } else {
      assert s == {};
    }
  }

  /** A recorded seeded row has a twin on the live page exactly when its own row is still there. */
  lemma TwinIsItself(e: Evolution, limit: nat, i: nat)
    requires e.Honest() && e.Read(limit).Seeded(i)
    ensures i < |e.place| && (e.Read(limit).TwinOf(i).Some? <==> e.place[i] < |Newest(e.after, limit)|)
    ensures e.Read(limit).TwinOf(i).Some? ==> e.Read(limit).TwinOf(i).value == e.after[e.place[i]]
  {
    var p := e.Read(limit);
    var ident := Stable(p.recorded[i], p.rowId).value;
    assert p.recorded[i] == e.before[i] && e.Carried(i) && e.SameIdentity(i);
    TwinIsARow(p.live, ident, p.rowId);
    if e.place[i] < |p.live| {
      assert p.live[e.place[i]] == e.after[e.place[i]] && p.live[e.place[i]] in p.live;
    }
    if p.TwinOf(i).Some? {
      var b :| 0 <= b < |p.live| && p.live[b] == p.TwinOf(i).value;
      assert e.after[b] == p.live[b];
      assert b == e.place[i];
    }
  }

  /** A seeded row off the live page slides: the page is full, and every older one is off it too. */
  lemma GoneMeansSlid(e: Evolution, limit: nat, i: nat)
    requires e.Honest() && e.Read(limit).Seeded(i) && e.Read(limit).TwinOf(i).None?
    ensures e.Read(limit).Slides(i)
  {
    var p := e.Read(limit);
    OnlyAdded(e);
    TwinIsItself(e, limit, i);
    forall j: nat | j < |p.recorded| && p.Seeded(j) && (j == i || Older(p.recorded, j, i))
      ensures p.TwinOf(j).None?
    {
      TwinIsItself(e, limit, j);
      if j != i && e.place[j] < |p.live| {
        assert p.recorded[i] == e.before[i] && p.recorded[j] == e.before[j] && e.InStep(j, i);
        var older, newer := CreatedAt(e.after[e.place[j]]), CreatedAt(e.after[e.place[i]]);
        assert Texts.Less(older, newer) && e.place[j] < e.place[i];
        assert Texts.Leq(newer, older);
        Texts.Antisymmetric(older, newer);
      }
    }
  }

  /** Over every honest evolution, the comparison of the two newest pages reports nothing. */
  lemma HonestEvolutionIsQuiet(e: Evolution, limit: nat, page: Page)
    requires e.Honest() && e.Read(limit).IsResult(page)
    ensures page.disagreements == []
  {
    var p := e.Read(limit);
    OnlyAdded(e);
    var order: seq<nat> :| p.OldestFirst(order) && page.disagreements == p.Floor() + p.Verdicts(order);
    forall i | i in order ensures p.Verdict(i) == [] {
      TwinIsItself(e, limit, i);
      if p.TwinOf(i).None? {
        GoneMeansSlid(e, limit, i);
      } else {
        assert p.recorded[i] == e.before[i] && e.Carried(i) && e.SameIdentity(i);
      }
    }
    if p.Verdicts(order) != [] {
      VerdictsAre(p, order, p.Verdicts(order)[0]);
    }
  }

  ghost predicate DistinctTimes(world: seq<Value>) {
    forall i, j :: 0 <= i < j < |world| ==> CreatedAt(world[i]) != CreatedAt(world[j])
  }

  /** And when no two live rows share a time, the rows set aside are exactly those that left the
      page: every row still compared has its own row on the live page. */
  lemma SetAsideExactly(e: Evolution, limit: nat, page: Page, i: nat)
    requires e.Honest() && DistinctTimes(e.after) && e.Read(limit).IsResult(page)
    requires i < |Newest(e.before, limit)|
    ensures i < |e.place| && (i in page.slidSeeded + page.slidTraffic <==> e.place[i] >= |Newest(e.after, limit)|)
  {
    var p := e.Read(limit);
    assert p.recorded[i] == e.before[i] && e.Carried(i) && e.SameIdentity(i);
    OnlyAdded(e);
    if p.Seeded(i) {
      TwinIsItself(e, limit, i);
      if p.TwinOf(i).None? {
        GoneMeansSlid(e, limit, i);
      }
    } else if e.place[i] < |p.live| {
      assert p.live[e.place[i]] == e.after[e.place[i]] && p.live[e.place[i]] in p.live;
    } else {
      forall row | row in p.live ensures Texts.Less(CreatedAt(p.recorded[i]), CreatedAt(row)) {
        var b :| 0 <= b < |p.live| && p.live[b] == row;
        assert e.after[b] == row && b < e.place[i];
      }
      assert p.SlidTraffic(i);
    }
  }
}
