/** How the gap divides: by the selector's decision, three ways over every scored run, against the
    generator's own top candidate, and over resampled worlds (evals/oracle_gap.py). */
module OracleGapSplits {
  import opened Wrappers
  import opened CandidateMetrics
  import opened OracleGap
  import Texts

  // ----- The gap's runs, by decision -----

  function Label(row: RunRow): string {
    if row.decision == "" then "none" else row.decision
  }

  /** An available answer was missed by a run that decided so, or by one that decided nothing. */
  predicate LostTo(row: RunRow, k: int, name: string) {
    row.Gap(k) == Some(1) && name != "" && (row.decision == name || (row.decision == "" && name == "none"))
  }

  /** How many runs lost an available answer that way. */
  function LostBy(rows: seq<RunRow>, k: int, name: string): nat {
    if rows == [] then 0
    else LostBy(rows[..|rows| - 1], k, name) + if LostTo(rows[|rows| - 1], k, name) then 1 else 0
  }

  function LostOver(labels: seq<string>, rows: seq<RunRow>, k: int): nat {
    if labels == [] then 0 else LostOver(labels[..|labels| - 1], rows, k) + LostBy(rows, k, labels[|labels| - 1])
  }

  ghost predicate Distinct(labels: seq<string>) {
    forall i, j :: 0 <= i < j < |labels| ==> labels[i] != labels[j]
  }

  lemma LostByOneMore(rows: seq<RunRow>, last: RunRow, k: int, name: string)
    ensures LostBy(rows + [last], k, name) == LostBy(rows, k, name) + if LostTo(last, k, name) then 1 else 0
  {
    assert (rows + [last])[..|rows|] == rows;
  }

  lemma {:induction false} LostOverOneMore(labels: seq<string>, rows: seq<RunRow>, last: RunRow, k: int)
    requires Distinct(labels)
    ensures LostOver(labels, rows + [last], k) ==
      LostOver(labels, rows, k) + if last.Gap(k) == Some(1) && Label(last) in labels then 1 else 0
  {
    if labels != [] {
      var rest, name := labels[..|labels| - 1], labels[|labels| - 1];
      assert labels == rest + [name];
      LostOverOneMore(rest, rows, last, k);
      LostByOneMore(rows, last, k, name);
    }
  }

  lemma {:induction false} NothingLost(labels: seq<string>, k: int)
    ensures LostOver(labels, [], k) == 0
  {
    if labels != [] {
      NothingLost(labels[..|labels| - 1], k);
    }
  }

  /** Labels that cover the gap's runs account for the whole gap. */
  lemma {:induction false} DecisionsSumToTheGap(labels: seq<string>, rows: seq<RunRow>, k: int)
    requires Distinct(labels) && AllCoherent(rows)
    requires forall row <- rows :: row.Gap(k) == Some(1) ==> Label(row) in labels
    ensures LostOver(labels, rows, k) == AtK(rows, k).gap
  {
    if rows == [] {
      NothingLost(labels, k);
    } else {
      var init, last := rows[..|rows| - 1], rows[|rows| - 1];
      assert rows == init + [last] && last in rows;
      DecisionsSumToTheGap(labels, init, k);
      LostOverOneMore(labels, init, last, k);
      assert last.Gap(k).Some? ==> CoherentAt(last, k);
    }
  }

  function Total(counts: seq<(string, nat)>): nat {
    if counts == [] then 0 else Total(counts[..|counts| - 1]) + counts[|counts| - 1].1
  }

  lemma {:induction false} TotalIsLostOver(counts: seq<(string, nat)>, labels: seq<string>, rows: seq<RunRow>, k: int)
    requires |counts| == |labels|
    requires forall i :: 0 <= i < |labels| ==> counts[i] == (labels[i], LostBy(rows, k, labels[i]))
    ensures Total(counts) == LostOver(labels, rows, k)
  {
    if labels != [] {
      TotalIsLostOver(counts[..|counts| - 1], labels[..|labels| - 1], rows, k);
    }
  }

  ghost predicate Tallies(counted: map<string, nat>, rows: seq<RunRow>, k: int) {
    forall name ::
      if name in counted then counted[name] == LostBy(rows, k, name) > 0 else LostBy(rows, k, name) == 0
  }

  lemma OneMoreTallied(counted: map<string, nat>, rows: seq<RunRow>, last: RunRow, k: int)
    requires Tallies(counted, rows, k)
    ensures var name := Label(last);
      Tallies(if last.Gap(k) == Some(1) then counted[name := (if name in counted then counted[name] else 0) + 1]
        else counted, rows + [last], k)
  {
    forall name ensures LostTo(last, k, name) <==> last.Gap(k) == Some(1) && Label(last) == name {
      assert "none" != "";
    }
    forall name
      ensures LostBy(rows + [last], k, name) == LostBy(rows, k, name) + if LostTo(last, k, name) then 1 else 0 {
      LostByOneMore(rows, last, k, name);
    }
  }

  method CountLost(rows: seq<RunRow>, k: int) returns (counted: map<string, nat>)
    ensures Tallies(counted, rows, k)
    ensures forall row <- rows :: row.Gap(k) == Some(1) ==> Label(row) in counted
  {
    counted := map[];
    for i := 0 to |rows|
      invariant Tallies(counted, rows[..i], k)
      invariant forall row <- rows[..i] :: row.Gap(k) == Some(1) ==> Label(row) in counted
    {
      assert rows[..i + 1] == rows[..i] + [rows[i]];
      var name := Label(rows[i]);
      OneMoreTallied(counted, rows[..i], rows[i], k);
      if rows[i].Gap(k) == Some(1) {
        counted := counted[name := (if name in counted then counted[name] else 0) + 1];
      }
    }
    assert rows[..|rows|] == rows;
  }

  /** `gap_by_decision`: each decision once, in order, with its runs; and over scored rows they sum to the gap. */
  method GapByDecision(rows: seq<RunRow>, k: int) returns (counts: seq<(string, nat)>)
    ensures forall i, j :: 0 <= i < j < |counts| ==> Texts.Less(counts[i].0, counts[j].0)
    ensures forall name, n :: (name, n) in counts <==> n == LostBy(rows, k, name) > 0
    ensures AllCoherent(rows) ==> Total(counts) == AtK(rows, k).gap
  {
    var counted := CountLost(rows, k);
    var labels := Texts.Sorted(counted.Keys);
    counts := seq(|labels|, i requires 0 <= i < |labels| => (labels[i], counted[labels[i]]));
    CountsAreLosses(counted, labels, counts, rows, k);
  }

  lemma CountsAreLosses(
      counted: map<string, nat>, labels: seq<string>, counts: seq<(string, nat)>, rows: seq<RunRow>, k: int)
    requires Tallies(counted, rows, k) && labels == Texts.Sorted(counted.Keys) && |counts| == |labels|
    requires forall i :: 0 <= i < |labels| ==> labels[i] in counted && counts[i] == (labels[i], counted[labels[i]])
    requires forall row <- rows :: row.Gap(k) == Some(1) ==> Label(row) in counted
    ensures forall i, j :: 0 <= i < j < |counts| ==> Texts.Less(counts[i].0, counts[j].0)
    ensures forall name, n :: (name, n) in counts <==> n == LostBy(rows, k, name) > 0
    ensures AllCoherent(rows) ==> Total(counts) == AtK(rows, k).gap
  {
    ListsLosses(counted, labels, counts, rows, k);
    if AllCoherent(rows) {
      CountsSumToTheGap(counts, labels, rows, k);
    }
  }

  lemma CountsSumToTheGap(counts: seq<(string, nat)>, labels: seq<string>, rows: seq<RunRow>, k: int)
    requires AllCoherent(rows) && Distinct(labels) && |counts| == |labels|
    requires forall i :: 0 <= i < |labels| ==> counts[i] == (labels[i], LostBy(rows, k, labels[i]))
    requires forall row <- rows :: row.Gap(k) == Some(1) ==> Label(row) in labels
    ensures Total(counts) == AtK(rows, k).gap
  {
    TotalIsLostOver(counts, labels, rows, k);
    DecisionsSumToTheGap(labels, rows, k);
  }

  lemma ListsLosses(
      counted: map<string, nat>, labels: seq<string>, counts: seq<(string, nat)>, rows: seq<RunRow>, k: int)
    requires forall name :: name in labels <==> name in counted
    requires Tallies(counted, rows, k)
    requires |counts| == |labels|
    requires forall i :: 0 <= i < |labels| ==> counts[i] == (labels[i], LostBy(rows, k, labels[i]))
    ensures forall name, n :: (name, n) in counts <==> n == LostBy(rows, k, name) > 0
  {
    forall name, n ensures (name, n) in counts <==> n == LostBy(rows, k, name) > 0 {
      if name in counted {
        var i :| 0 <= i < |labels| && labels[i] == name;
        assert counts[i] == (name, LostBy(rows, k, name)) && counts[i] in counts;
      }
      if (name, n) in counts {
        var i :| 0 <= i < |counts| && counts[i] == (name, n);
        assert labels[i] in labels;
      }
    }
  }

  // ----- Three ways over every scored run -----

  datatype Pick = Correct | Wrong | Declined(name: string)

  const DECLINED_DECISIONS: seq<string> := ["probe_more", "escalate"]

  function PickOf(decision: string, hit: bool): Pick {
    if hit then Correct
    else if decision == "select" then Wrong
    else if decision in DECLINED_DECISIONS then Declined(decision)
    else Declined("none")
  }

  /** A scored run that hit, that selected and missed, or that did not select, by what it did instead. */
  predicate Picks(row: RunRow, k: int, pick: Pick) {
    row.Gap(k).Some? &&
    match pick
    case Correct => row.Selected(k) == Some(true)
    case Wrong => row.Selected(k) == Some(false) && row.decision == "select"
    case Declined(name) =>
      && row.Selected(k) == Some(false) && row.decision != "select"
      && name == if row.decision == "probe_more" || row.decision == "escalate" then row.decision else "none"
  }

  function Picked(rows: seq<RunRow>, k: int, pick: Pick): nat {
    if rows == [] then 0
    else Picked(rows[..|rows| - 1], k, pick) + if Picks(rows[|rows| - 1], k, pick) then 1 else 0
  }

  datatype Split = Split(n: nat, correct: nat, wrong: nat, probeMore: nat, escalate: nat, none: nat)

  predicate Unscored(row: RunRow, k: int) {
    row.Gap(k).Some? && row.Selected(k).None?
  }

  function Scored(rows: seq<RunRow>, k: int): nat {
    if rows == [] then 0 else Scored(rows[..|rows| - 1], k) + if rows[|rows| - 1].Gap(k).Some? then 1 else 0
  }

  ghost predicate Splits(split: Split, rows: seq<RunRow>, k: int) {
    && split.n == Scored(rows, k) && split.correct == Picked(rows, k, Correct) && split.wrong == Picked(rows, k, Wrong)
    && split.probeMore == Picked(rows, k, Declined("probe_more"))
    && split.escalate == Picked(rows, k, Declined("escalate")) && split.none == Picked(rows, k, Declined("none"))
  }

  /** `pick_split`: every scored run lands in exactly one of the ways; a run without a verdict is refused. */
  method PickSplit(rows: seq<RunRow>, k: int) returns (r: Result<Split, RunRow>)
    ensures r.Ok? <==> forall row <- rows :: !Unscored(row, k)
    ensures r.Ok? ==> Splits(r.value, rows, k)
  {
    var split := Split(0, 0, 0, 0, 0, 0);
    for i := 0 to |rows|
      invariant Splits(split, rows[..i], k)
      invariant forall row <- rows[..i] :: !Unscored(row, k)
    {
      assert rows[..i + 1] == rows[..i] + [rows[i]];
      var row := rows[i];
      if Unscored(row, k) {
        return Err(row);
      }
      split := CountRow(split, rows[..i], row, k);
    }
    assert rows[..|rows|] == rows;
    return Ok(split);
  }

  function CountPick(split: Split, pick: Pick): Split {
    var more := split.(n := split.n + 1);
    match pick
    case Correct => more.(correct := more.correct + 1)
    case Wrong => more.(wrong := more.wrong + 1)
    case Declined(name) =>
      if name == "probe_more" then more.(probeMore := more.probeMore + 1)
      else if name == "escalate" then more.(escalate := more.escalate + 1)
      else more.(none := more.none + 1)
  }

  lemma OneMorePick(rows: seq<RunRow>, last: RunRow, k: int)
    ensures Scored(rows + [last], k) == Scored(rows, k) + if last.Gap(k).Some? then 1 else 0
    ensures forall pick ::
      Picked(rows + [last], k, pick) == Picked(rows, k, pick) + if Picks(last, k, pick) then 1 else 0
  {
    assert (rows + [last])[..|rows|] == rows;
  }

  method CountRow(split: Split, ghost rows: seq<RunRow>, row: RunRow, k: int) returns (after: Split)
    requires Splits(split, rows, k) && !Unscored(row, k)
    ensures Splits(after, rows + [row], k)
  {
    OneMorePick(rows, row, k);
    after := if row.Gap(k).Some? then CountPick(split, PickOf(row.decision, row.Selected(k).value)) else split;
  }

  /** The ways are exclusive and they are all: their counts sum to the scored runs. */
  lemma {:induction false} EveryRunLandsOnce(rows: seq<RunRow>, k: int)
    requires forall row <- rows :: !Unscored(row, k)
    ensures Scored(rows, k)
      == Picked(rows, k, Correct) + Picked(rows, k, Wrong) + Picked(rows, k, Declined("probe_more"))
      + Picked(rows, k, Declined("escalate")) + Picked(rows, k, Declined("none"))
  {
    if rows != [] {
      var init, last := rows[..|rows| - 1], rows[|rows| - 1];
      assert rows == init + [last] && last in rows;
      EveryRunLandsOnce(init, k);
      OneMorePick(init, last, k);
      OneWay(last, k);
    }
  }

  lemma OneWay(row: RunRow, k: int)
    requires !Unscored(row, k)
    ensures ToInt(row.Gap(k).Some?)
      == ToInt(Picks(row, k, Correct)) + ToInt(Picks(row, k, Wrong)) + ToInt(Picks(row, k, Declined("probe_more")))
      + ToInt(Picks(row, k, Declined("escalate"))) + ToInt(Picks(row, k, Declined("none")))
  {
    assert |"none"| == 4 && |"probe_more"| == 10 && |"escalate"| == 8 && |"select"| == 6;
    if row.Gap(k).Some? && !row.Selected(k).value && row.decision != "select" {
      if row.decision == "probe_more" {
      } else if row.decision == "escalate" {
      } else {
        assert Picks(row, k, Declined("none"));
      }
    }
  }

  /** The split is over the same runs as the gap, what it counts correct is selected@k, and a run the gap
      blames on a decision is among those the split gives that decision. */
  lemma {:induction false} SplitAgreesWithTheGap(rows: seq<RunRow>, k: int)
    requires AllCoherent(rows)
    ensures Scored(rows, k) == AtK(rows, k).n && Picked(rows, k, Correct) == AtK(rows, k).selected
    ensures LostBy(rows, k, "select") <= Picked(rows, k, Wrong)
    ensures LostBy(rows, k, "probe_more") <= Picked(rows, k, Declined("probe_more"))
    ensures LostBy(rows, k, "escalate") <= Picked(rows, k, Declined("escalate"))
  {
    if rows != [] {
      var init, last := rows[..|rows| - 1], rows[|rows| - 1];
      assert last in rows && Coherent(last);
      SplitAgreesWithTheGap(init, k);
      assert last.Gap(k).Some? ==> CoherentAt(last, k);
    }
  }

  // ----- Against the generator's own top candidate -----

  datatype Four = Four(n: nat, bothRight: nat, onlySelector: nat, onlyTop: nat, bothWrong: nat)

  function FourOf(row: RunRow, k: int): Four {
    if row.Pass(1).None? || row.Selected(k).None? then Four(0, 0, 0, 0, 0)
    else
      var top, selector := row.Pass(1).value, row.Selected(k).value;
      Four(1, ToInt(top && selector), ToInt(!top && selector), ToInt(top && !selector), ToInt(!top && !selector))
  }

  function SelectorVsTop(rows: seq<RunRow>, k: int): Four {
    if rows == [] then Four(0, 0, 0, 0, 0)
    else
      var a, b := SelectorVsTop(rows[..|rows| - 1], k), FourOf(rows[|rows| - 1], k);
      Four(a.n + b.n, a.bothRight + b.bothRight, a.onlySelector + b.onlySelector, a.onlyTop + b.onlyTop,
        a.bothWrong + b.bothWrong)
  }

  /** The four cells part the scored runs, and their margins are selected@k and pass@1. */
  lemma {:induction false} MarginsAreTheMetrics(rows: seq<RunRow>, k: int)
    requires AllCoherent(rows) && forall row <- rows :: 1 in row.gap && k in row.gap
    ensures var four := SelectorVsTop(rows, k);
      && four.n == four.bothRight + four.onlySelector + four.onlyTop + four.bothWrong
      && four.n == AtK(rows, k).n
      && four.bothRight + four.onlySelector == AtK(rows, k).selected
      && four.bothRight + four.onlyTop == AtK(rows, 1).pass
  {
    if rows != [] {
      var init, last := rows[..|rows| - 1], rows[|rows| - 1];
      assert last in rows && Coherent(last);
      MarginsAreTheMetrics(init, k);
      assert last.Gap(k).Some? ==> CoherentAt(last, k);
      assert last.Gap(1).Some? ==> CoherentAt(last, 1);
    }
  }
}
