/** The row-by-row half of evals/fixture_drift.py: two sliding newest-first pages compared by
    the seeded rows' own ids. */
module NewestPage {
  import opened Wrappers
  import opened Json
  import opened WorldComparison
  import Texts

  // ----- Rows -----

  /** The id that survives every reset, if the row has one: a string that is not a random UUID. */
  function Stable(row: Value, rowId: string): Option<string> {
    if row.Obj? && rowId in row.fields && row.fields[rowId].Str? && !IsRandomUuid(row.fields[rowId].text)
    then Some(row.fields[rowId].text) else None
  }

  /** When a row says it was created, or the empty text, which precedes every time. */
  function CreatedAt(row: Value): string {
    if row.Obj? && "created_at" in row.fields && row.fields["created_at"].Str? then row.fields["created_at"].text
      else ""
  }

  /** Row `i` comes before row `j` when the rows are sorted by age, oldest first. */
  predicate Older(rows: seq<Value>, i: nat, j: nat)
    requires i < |rows| && j < |rows|
  {
    Texts.Less(CreatedAt(rows[i]), CreatedAt(rows[j])) || (CreatedAt(rows[i]) == CreatedAt(rows[j]) && i < j)
  }

  ghost predicate InAgeOrder(rows: seq<Value>, order: seq<nat>) {
    && (forall a :: 0 <= a < |order| ==> order[a] < |rows|)
    && forall a, b :: 0 <= a < b < |order| ==> Older(rows, order[a], order[b])
  }

  lemma OlderIsAnOrder(rows: seq<Value>, i: nat, j: nat, k: nat)
    requires i < |rows| && j < |rows| && k < |rows|
    ensures i == j || Older(rows, i, j) || Older(rows, j, i)
    ensures !(Older(rows, i, j) && Older(rows, j, i))
    ensures Older(rows, i, j) && Older(rows, j, k) ==> Older(rows, i, k)
  {
    var a, b, c := CreatedAt(rows[i]), CreatedAt(rows[j]), CreatedAt(rows[k]);
    Texts.Total(a, b);
    if Texts.Leq(a, b) && Texts.Leq(b, a) {
      Texts.Antisymmetric(a, b);
    }
    if Texts.Leq(a, b) && Texts.Leq(b, c) {
      Texts.Transitive(a, b, c);
      if a == c {
        Texts.Antisymmetric(a, b);
      }
    }
  }

  /** The row a `{id: row}` dictionary of the live page holds for an id: the last one. */
  function Twin(live: seq<Value>, ident: string, rowId: string): Option<Value> {
    if live == [] then None
    else if Stable(live[|live| - 1], rowId) == Some(ident) then Some(live[|live| - 1])
    else Twin(live[..|live| - 1], ident, rowId)
  }

  lemma {:induction false} TwinIsARow(live: seq<Value>, ident: string, rowId: string)
    ensures Twin(live, ident, rowId).None? <==> forall row <- live :: Stable(row, rowId) != Some(ident)
    ensures Twin(live, ident, rowId).Some? ==>
      Twin(live, ident, rowId).value in live && Stable(Twin(live, ident, rowId).value, rowId) == Some(ident)
  {
    if live != [] {
      assert live == live[..|live| - 1] + [live[|live| - 1]];
      TwinIsARow(live[..|live| - 1], ident, rowId);
    }
  }

  // ----- The comparison, declaratively -----

  datatype Disagreement = PageBelowFloor | SeededRowMissing(row: nat) | SeededRowChanged(row: nat)

  datatype Page = Page(slidSeeded: set<nat>, slidTraffic: set<nat>, disagreements: seq<Disagreement>)

  /** One comparison of two pages: the call's limit, and what identifies a row. */
  datatype Pages = Pages(recorded: seq<Value>, live: seq<Value>, key: string, rowId: string, limit: int,
    relaxed: set<Path>)
  {
    predicate BelowFloor() {
      |live| < if |recorded| < limit then |recorded| else limit
    }

    function Floor(): seq<Disagreement> {
      if BelowFloor() then [PageBelowFloor] else []
    }

    predicate LiveFull() {
      |live| >= limit && !BelowFloor()
    }

    predicate Seeded(i: nat) {
      i < |recorded| && Stable(recorded[i], rowId).Some?
    }

    function TwinOf(i: nat): Option<Value>
      requires Seeded(i)
    {
      Twin(live, Stable(recorded[i], rowId).value, rowId)
    }

    /** No seeded row as old as this one or older is still on the live page. */
    predicate Slides(i: nat)
      requires Seeded(i)
    {
      LiveFull() && forall j: nat ::
        j < |recorded| && Seeded(j) && (j == i || Older(recorded, j, i)) ==> TwinOf(j).None?
    }

    predicate Missing(i: nat)
      requires Seeded(i)
    {
      TwinOf(i).None? && !Slides(i)
    }

    predicate Changed(i: nat)
      requires Seeded(i)
    {
      TwinOf(i).Some? && Identity(recorded[i], [key], relaxed) != Identity(TwinOf(i).value, [key], relaxed)
    }

    /** A traffic row older than every row the full live page holds. */
    predicate SlidTraffic(i: nat) {
      i < |recorded| && Stable(recorded[i], rowId).None? && LiveFull() && live != []
      && forall row <- live :: Texts.Less(CreatedAt(recorded[i]), CreatedAt(row))
    }

    function Verdict(i: nat): seq<Disagreement>
      requires Seeded(i)
    {
      if Missing(i) then [SeededRowMissing(i)] else if Changed(i) then [SeededRowChanged(i)] else []
    }

    function Verdicts(order: seq<nat>): seq<Disagreement>
      requires forall i <- order :: Seeded(i)
    {
      if order == [] then []
      else Verdicts(order[..|order| - 1]) + Verdict(order[|order| - 1])
    }

    /** `order` lists the seeded rows, oldest first. */
    ghost predicate OldestFirst(order: seq<nat>) {
      && (forall i <- order :: Seeded(i))
      && (forall i: nat :: Seeded(i) ==> i in order)
      && InAgeOrder(recorded, order)
    }

    /** Nothing among the first `n` rows of the order is on the full live page. */
    ghost predicate Sliding(order: seq<nat>, n: nat)
      requires OldestFirst(order) && n <= |order|
    {
      LiveFull() && forall a :: 0 <= a < n ==> TwinOf(order[a]).None?
    }

    ghost predicate IsResult(page: Page) {
      && (forall i: nat :: i in page.slidSeeded <==> Seeded(i) && Slides(i))
      && (forall i: nat :: i in page.slidTraffic <==> SlidTraffic(i))
      && exists order: seq<nat> :: OldestFirst(order) && page.disagreements == Floor() + Verdicts(order)
    }
  }

  // ----- The comparison, as it runs -----

  lemma Inserted(recorded: seq<Value>, order: seq<nat>, i: nat, n: nat)
    requires i < |recorded| && InAgeOrder(recorded, order) && (forall j <- order :: j < i) && n <= |order|
    requires forall a :: n <= a < |order| ==> Older(recorded, i, order[a])
    requires n > 0 ==> !Older(recorded, i, order[n - 1])
    ensures InAgeOrder(recorded, order[..n] + [i] + order[n..])
  {
    var older := (a: nat, b: nat) => a < |recorded| && b < |recorded| && Older(recorded, a, b);
    forall a | 0 <= a < n ensures Older(recorded, order[a], i) {
      assert order[a] in order && order[n - 1] in order;
      OlderIsAnOrder(recorded, order[n - 1], i, i);
      if a < n - 1 {
        OlderIsAnOrder(recorded, order[a], order[n - 1], i);
      }
    }
    InsertKeepsOrder(older, order, i, n);
    var out := order[..n] + [i] + order[n..];
    forall a, b | 0 <= a < b < |out| ensures Older(recorded, out[a], out[b]) {
      assert older(out[a], out[b]);
    }
  }

  lemma InsertKeepsOrder(before: (nat, nat) -> bool, order: seq<nat>, i: nat, n: nat)
    requires n <= |order| && forall a, b :: 0 <= a < b < |order| ==> before(order[a], order[b])
    requires forall a :: 0 <= a < n ==> before(order[a], i)
    requires forall a :: n <= a < |order| ==> before(i, order[a])
    ensures var out := order[..n] + [i] + order[n..];
      forall a, b :: 0 <= a < b < |out| ==> before(out[a], out[b])
  {
  }

  method InsertByAge(recorded: seq<Value>, order: seq<nat>, i: nat) returns (out: seq<nat>)
    requires i < |recorded| && InAgeOrder(recorded, order) && forall j <- order :: j < i
    ensures InAgeOrder(recorded, out) && forall j: nat :: j in out <==> j in order || j == i
  {
    var n := |order|;
    while n > 0 && Older(recorded, i, order[n - 1])
      invariant 0 <= n <= |order|
      invariant forall a :: n <= a < |order| ==> Older(recorded, i, order[a])
    {
      n := n - 1;
    }
    Inserted(recorded, order, i, n);
    assert order == order[..n] + order[n..];
    out := order[..n] + [i] + order[n..];
  }

  method SeededByAge(p: Pages) returns (order: seq<nat>)
    ensures p.OldestFirst(order)
  {
    order := [];
    for i := 0 to |p.recorded|
      invariant forall j: nat :: j in order <==> j < i && p.Seeded(j)
      invariant InAgeOrder(p.recorded, order)
    {
      if Stable(p.recorded[i], p.rowId).Some? {
        order := InsertByAge(p.recorded, order, i);
      }
    }
  }

  /** One turn of the loop: does this row slide, and does it disagree? */
  method JudgeRow(p: Pages, i: nat, sliding: bool, ghost order: seq<nat>, ghost n: nat)
    returns (slides: bool, verdict: seq<Disagreement>, stillSliding: bool)
    requires p.OldestFirst(order) && n < |order| && order[n] == i && (sliding <==> p.Sliding(order, n))
    ensures (slides <==> p.Slides(i)) && verdict == p.Verdict(i) && (stillSliding <==> p.Sliding(order, n + 1))
  {
    Judged(p, order, n);
    var twin := p.TwinOf(i);
    slides, verdict, stillSliding := false, [], sliding;
    if twin.None? {
      if sliding {
        slides := true;
      } else {
        verdict := [SeededRowMissing(i)];
      }
    } else {
      stillSliding := false;
      if Identity(p.recorded[i], [p.key], p.relaxed) != Identity(twin.value, [p.key], p.relaxed) {
        verdict := [SeededRowChanged(i)];
      }
    }
  }

  method NewestPageOf(p: Pages) returns (page: Page)
    ensures p.IsResult(page)
  {
    var order := SeededByAge(p);
    var found := p.Floor();
    var slid: set<nat> := {};
    var sliding := p.LiveFull();
    for n := 0 to |order|
      invariant sliding <==> p.Sliding(order, n)
      invariant SlidSoFar(p, order, n, slid)
      invariant found == p.Floor() + p.Verdicts(order[..n])
    {
      var slides, verdict, stillSliding := JudgeRow(p, order[n], sliding, order, n);
      NextVerdict(p, order, n);
      NextSlid(p, order, n, slid);
      slid := slid + if slides then {order[n]} else {};
      found, sliding := found + verdict, stillSliding;
    }
    assert order[..|order|] == order;
    page := Page(slid, Traffic(p), found);
  }

  ghost predicate SlidSoFar(p: Pages, order: seq<nat>, n: nat, slid: set<nat>)
    requires p.OldestFirst(order) && n <= |order|
  {
    forall i: nat :: i in slid <==> i in order[..n] && p.Slides(i)
  }

  lemma NextSlid(p: Pages, order: seq<nat>, n: nat, slid: set<nat>)
    requires p.OldestFirst(order) && n < |order| && SlidSoFar(p, order, n, slid)
    ensures SlidSoFar(p, order, n + 1, slid + if p.Slides(order[n]) then {order[n]} else {})
  {
    assert order[..n + 1] == order[..n] + [order[n]];
  }

  function Traffic(p: Pages): (slid: set<nat>)
    ensures forall i: nat :: i in slid <==> p.SlidTraffic(i)
  {
    set i: nat | i < |p.recorded| && p.SlidTraffic(i)
  }

  /** What the loop decides about one row, given whether anything older is still on the page. */
  lemma Judged(p: Pages, order: seq<nat>, n: nat)
    requires p.OldestFirst(order) && n < |order|
    ensures var i, sliding := order[n], p.Sliding(order, n);
      && (p.Sliding(order, n + 1) <==> p.TwinOf(i).None? && sliding)
      && (p.Slides(i) <==> p.TwinOf(i).None? && sliding)
      && p.Verdict(i) ==
        if p.TwinOf(i).None? then (if sliding then [] else [SeededRowMissing(i)])
        else if Identity(p.recorded[i], [p.key], p.relaxed) != Identity(p.TwinOf(i).value, [p.key], p.relaxed) then
          [SeededRowChanged(i)]
        else []
  {
    SlidesByOrder(p, order, n);
  }

  lemma NextVerdict(p: Pages, order: seq<nat>, n: nat)
    requires p.OldestFirst(order) && n < |order|
    ensures order[..n + 1] == order[..n] + [order[n]]
    ensures p.Verdicts(order[..n + 1]) == p.Verdicts(order[..n]) + p.Verdict(order[n])
  {
    assert order[..n + 1][..n] == order[..n];
  }

  /** In age order, a row slides exactly when it and all the rows before it are off the live page. */
  lemma SlidesByOrder(p: Pages, order: seq<nat>, n: nat)
    requires p.OldestFirst(order) && n < |order|
    ensures p.Slides(order[n]) <==> p.LiveFull() && forall a :: 0 <= a <= n ==> p.TwinOf(order[a]).None?
  {
    var i := order[n];
    forall a | 0 <= a <= n ensures p.Slides(i) ==> p.TwinOf(order[a]).None? {
      assert p.Seeded(order[a]);
    }
    forall j: nat | j < |p.recorded| && p.Seeded(j) && (j == i || Older(p.recorded, j, i))
      ensures exists a :: 0 <= a <= n && order[a] == j
    {
      var a :| 0 <= a < |order| && order[a] == j;
      if a > n {
        OlderIsAnOrder(p.recorded, i, j, j);
      }
    }
  }
}
