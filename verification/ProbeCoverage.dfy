/** What a probe run licenses a bless to delete: evals/fixture_probe.py feeding
    evals/fixture_drift_ledger.py, as scripts/fixture_drift.py joins them. */
module ProbeCoverage {
  import opened Wrappers
  import opened WorldComparison
  import WorldAgreement
  import opened DriftLedger
  import opened LiveProbe
  import opened Json

  /** How a drift's path and kind are spelled in the ledger. */
  type Spelling = Drift -> (string, string)

  function KeyOf(spell: Spelling, found: Found): DriftKey {
    DriftKey(found.call.scenario, found.call.tool, spell(found.drift).0, spell(found.drift).1, Some(found.call.index))
  }

  function ObservationOf(spell: Spelling, result: ProbeResult): Observation {
    Observation(set found <- result.drifts :: KeyOf(spell, found), result.compared, result.stack)
  }

  ghost predicate SomeEnds(cache: Cache, probed: seq<CannedCall>, pair: (string, string), end: End)
    requires InCache(cache, probed)
  {
    exists call <- probed :: call.Pair() == pair && EndOf(call, cache[call.Key()]) == end
  }

  lemma {:induction false} FoundAmong(cache: Cache, probed: seq<CannedCall>, found: Found)
    requires InCache(cache, probed)
    ensures found in AllFound(cache, probed) <==>
      exists call <- probed :: found in FoundIn(call, cache[call.Key()])
  {
    if probed != [] {
      var init, last := probed[..|probed| - 1], probed[|probed| - 1];
      assert probed == init + [last];
      FoundAmong(cache, init, found);
    }
  }

  /** Nothing enters the ledger but drift that comparing some element of its own pair produced. */
  lemma ObservedWereCompared(spell: Spelling, result: ProbeResult, cache: Cache, probed: seq<CannedCall>, key: DriftKey)
    requires Reports(result, cache, probed) && key in ObservationOf(spell, result).observed
    ensures SomeEnds(cache, probed, key.Pair(), Compared)
    ensures key.index.Some?
  {
    var found :| found in result.drifts && KeyOf(spell, found) == key;
    FoundAmong(cache, probed, found);
    var call :| call in probed && found in FoundIn(call, cache[call.Key()]);
    assert found.call == call;
  }

  /** A bless straight from a run deletes an unobserved key exactly when its row is held on this stack, some
      element of its pair was compared, and none was still refused. */
  lemma DroppedExactly(
      spell: Spelling, table: Justified, prior: set<DriftKey>, result: ProbeResult, cache: Cache,
      probed: seq<CannedCall>, key: DriftKey)
    requires Reports(result, cache, probed) && key in prior
    ensures var o := ObservationOf(spell, result);
      key !in Blessed(table, prior, o) <==>
        && key !in o.observed
        && HeldToTheRatchet(ContextOf(table, key), result.stack)
        && SomeEnds(cache, probed, key.Pair(), Compared)
        && !SomeEnds(cache, probed, key.Pair(), Limited)
  {
    EndsArePairs(cache, probed, key.Pair(), Compared);
    EndsArePairs(cache, probed, key.Pair(), Limited);
  }

  lemma EndsArePairs(cache: Cache, probed: seq<CannedCall>, pair: (string, string), end: End)
    requires InCache(cache, probed)
    ensures pair in PairsEnding(cache, probed, end) <==> SomeEnds(cache, probed, pair, end)
  {
  }

  // ----- The guard in front of the bless -----

  datatype BlessOutcome = RefusedRateLimited | RefusedErrors | RefusedNotCompared | Wrote(ledger: set<DriftKey>)

  function Without(o: Observation, notFresh: set<(string, string)>): Observation {
    Observation((set key | key in o.observed && key.Pair() !in notFresh), o.checked - notFresh, o.stack)
  }

  /** `--bless`: refused from a run that could not read part of the suite, and silent about the pairs
      the caller calls not fresh. */
  function BlessRun(
      spell: Spelling, table: Justified, prior: set<DriftKey>, result: ProbeResult, notFresh: set<(string, string)>)
    : BlessOutcome {
    if result.rateLimited != {} then RefusedRateLimited
    else if result.errors != [] then RefusedErrors
    else if !(notFresh <= result.compared) then RefusedNotCompared
    else Wrote(Blessed(table, prior, Without(ObservationOf(spell, result), notFresh)))
  }

  lemma {:induction false} NoErrorsMeansNone(cache: Cache, probed: seq<CannedCall>, call: CannedCall)
    requires InCache(cache, probed) && ErrorsOf(cache, probed) == [] && call in probed
    ensures EndOf(call, cache[call.Key()]) != Errored
  {
    var init, last := probed[..|probed| - 1], probed[|probed| - 1];
    assert probed == init + [last];
    if call != last {
      NoErrorsMeansNone(cache, init, call);
    }
  }

  /** Behind the guard, a key leaves the ledger only when every probed element of its pair was compared,
      none of them showed the drift, its row is held on this stack, and nobody set the pair aside; and
      then it does leave. */
  lemma GuardedBlessDropsExactly(
      spell: Spelling, table: Justified, prior: set<DriftKey>, result: ProbeResult, cache: Cache,
      probed: seq<CannedCall>,
      notFresh: set<(string, string)>, key: DriftKey)
    requires Reports(result, cache, probed) && (result.errors == [] ==> ErrorsOf(cache, probed) == [])
    requires BlessRun(spell, table, prior, result, notFresh).Wrote? && key in prior
    ensures key !in BlessRun(spell, table, prior, result, notFresh).ledger <==>
      && key.Pair() !in notFresh
      && HeldToTheRatchet(ContextOf(table, key), result.stack)
      && SomeEnds(cache, probed, key.Pair(), Compared)
      && AllEnd(cache, probed, key.Pair(), Compared)
      && !Shown(spell, cache, probed, key)
  {
    var o := ObservationOf(spell, result);
    DroppedExactly(spell, table, prior, result, cache, probed, key);
    ObservedIffShown(spell, result, cache, probed, key);
    forall call | call in probed ensures EndOf(call, cache[call.Key()]) == Compared {
      NoErrorsMeansNone(cache, probed, call);
      assert call.Pair() !in PairsEnding(cache, probed, Limited);
    }
    EndsArePairs(cache, probed, key.Pair(), Compared);
  }

  ghost predicate AllEnd(cache: Cache, probed: seq<CannedCall>, pair: (string, string), end: End)
    requires InCache(cache, probed)
  {
    forall call <- probed :: call.Pair() == pair ==> EndOf(call, cache[call.Key()]) == end
  }

  /** Some probed call's comparison produced a drift of this key. */
  ghost predicate Shown(spell: Spelling, cache: Cache, probed: seq<CannedCall>, key: DriftKey)
    requires InCache(cache, probed)
  {
    exists call <- probed, drift ::
      Found(call, drift) in FoundIn(call, cache[call.Key()]) && KeyOf(spell, Found(call, drift)) == key
  }

  lemma ObservedIffShown(spell: Spelling, result: ProbeResult, cache: Cache, probed: seq<CannedCall>, key: DriftKey)
    requires Reports(result, cache, probed)
    ensures key in ObservationOf(spell, result).observed <==> Shown(spell, cache, probed, key)
  {
    if key in ObservationOf(spell, result).observed {
      var found :| found in result.drifts && KeyOf(spell, found) == key;
      FoundAmong(cache, probed, found);
      var call :| call in probed && found in FoundIn(call, cache[call.Key()]);
      assert found == Found(call, found.drift);
    }
    if Shown(spell, cache, probed, key) {
      var call, drift :| call in probed && Found(call, drift) in FoundIn(call, cache[call.Key()])
        && KeyOf(spell, Found(call, drift)) == key;
      FoundAmong(cache, probed, Found(call, drift));
    }
  }

  /** Without the guard the key of an element nobody read can go: its pair counts as compared as soon as
      another element of it agreed. */
  lemma UnreadElementLosesItsKey(
      spell: Spelling, table: Justified, prior: set<DriftKey>, result: ProbeResult, cache: Cache,
      read: CannedCall, unread: CannedCall, key: DriftKey)
    requires Reports(result, cache, [read, unread]) && read.Pair() == unread.Pair()
    requires cache[read.Key()] == Reading(read.payload) && EndOf(unread, cache[unread.Key()]) == Errored
    requires key in prior && key.Pair() == unread.Pair() && key.index == Some(unread.index)
    requires HeldToTheRatchet(ContextOf(table, key), result.stack)
    ensures key !in Blessed(table, prior, ObservationOf(spell, result))
  {
    var probed := [read, unread];
    WorldAgreement.SelfIsClean(read.policy, Obj(read.payload), [], false);
    assert FoundIn(read, cache[read.Key()]) == [] && FoundIn(unread, cache[unread.Key()]) == [];
    ObservedIffShown(spell, result, cache, probed, key);
    assert read in probed && EndOf(read, cache[read.Key()]) == Compared;
    DroppedExactly(spell, table, prior, result, cache, probed, key);
  }
}
