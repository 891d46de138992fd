/** Which ledger rows a probe run may delete, said of the replies it got: evals/fixture_probe.py and
    evals/fixture_drift_ledger.py together. */
module BlessLaw {
  import opened Wrappers
  import opened Json
  import opened WorldComparison
  import opened DriftLedger
  import opened LiveProbe
  import opened ProbeCoverage
  import opened Filtering

  // ----- What one reply is worth -----

  /** A read call is compared with what it read; a call that failed where chaos is seeded, with the empty payload;
      and no other call is compared. */
  function ComparedWith(call: CannedCall, reply: Reply): Option<map<string, Value>> {
    if reply.Reading? then Some(reply.payload)
    else if reply.Failed? && call.chaosSeeded then Some(map[])
    else None
  }

  predicate WasCompared(cache: Cache, probed: seq<CannedCall>, pair: (string, string))
    requires InCache(cache, probed)
  {
    exists call <- probed ::
      call.scenario == pair.0 && call.tool == pair.1 && ComparedWith(call, cache[call.Key()]).Some?
  }

  predicate WasRefused(cache: Cache, probed: seq<CannedCall>, pair: (string, string))
    requires InCache(cache, probed)
  {
    exists call <- probed :: call.scenario == pair.0 && call.tool == pair.1 && cache[call.Key()].RateLimited?
  }

  /** A compared call's payloads drift under this key. */
  ghost predicate DriftSeen(spell: Spelling, cache: Cache, probed: seq<CannedCall>, key: DriftKey)
    requires InCache(cache, probed)
  {
    exists call <- probed, drift: Drift ::
      && ComparedWith(call, cache[call.Key()]).Some?
      && drift in Walked(call.policy, Obj(call.payload), Obj(ComparedWith(call, cache[call.Key()]).value), [], false)
      && key == DriftKey(call.scenario, call.tool, spell(drift).0, spell(drift).1, Some(call.index))
  }

  lemma EndsByReply(call: CannedCall, reply: Reply)
    ensures EndOf(call, reply) == Compared <==> ComparedWith(call, reply).Some?
    ensures EndOf(call, reply) == Limited <==> reply.RateLimited?
    ensures forall drift :: Found(call, drift) in FoundIn(call, reply) <==>
      && ComparedWith(call, reply).Some?
      && drift in Walked(call.policy, Obj(call.payload), Obj(ComparedWith(call, reply).value), [], false)
  {
    if live :| ComparedWith(call, reply) == Some(live) {
      var drifts := Against(call, live);
      assert FoundIn(call, reply) == Tagged(call, drifts);
      forall drift | drift in drifts ensures Found(call, drift) in Tagged(call, drifts) {
        var i :| 0 <= i < |drifts| && drifts[i] == drift;
        assert Tagged(call, drifts)[i] == Found(call, drift);
      }
    }
  }

  lemma PairsByReply(cache: Cache, probed: seq<CannedCall>, pair: (string, string))
    requires InCache(cache, probed)
    ensures SomeEnds(cache, probed, pair, Compared) <==> WasCompared(cache, probed, pair)
    ensures SomeEnds(cache, probed, pair, Limited) <==> WasRefused(cache, probed, pair)
  {
    forall call | call in probed
      ensures EndOf(call, cache[call.Key()]) == Compared <==> ComparedWith(call, cache[call.Key()]).Some?
      ensures EndOf(call, cache[call.Key()]) == Limited <==> cache[call.Key()].RateLimited?
    {
      EndsByReply(call, cache[call.Key()]);
    }
  }

  lemma SeenIsShown(spell: Spelling, cache: Cache, probed: seq<CannedCall>, key: DriftKey)
    requires InCache(cache, probed)
    ensures Shown(spell, cache, probed, key) <==> DriftSeen(spell, cache, probed, key)
  {
    if Shown(spell, cache, probed, key) {
      var call, drift :| call in probed && Found(call, drift) in FoundIn(call, cache[call.Key()])
        && KeyOf(spell, Found(call, drift)) == key;
      EndsByReply(call, cache[call.Key()]);
    }
    if DriftSeen(spell, cache, probed, key) {
      var call, drift: Drift :| call in probed && ComparedWith(call, cache[call.Key()]).Some?
        && drift in Walked(call.policy, Obj(call.payload), Obj(ComparedWith(call, cache[call.Key()]).value), [], false)
        && key == DriftKey(call.scenario, call.tool, spell(drift).0, spell(drift).1, Some(call.index));
      EndsByReply(call, cache[call.Key()]);
    }
  }

  /** The run's errors are the calls that failed where no chaos is seeded, in order. */
  lemma {:induction false} ErrorsInOrder(cache: Cache, probed: seq<CannedCall>)
    requires InCache(cache, probed)
    ensures PickedFrom(probed, ErrorsOf(cache, probed), (call: CannedCall) => ErrorIn(cache, call))
  {
    var pick := (call: CannedCall) => ErrorIn(cache, call);
    if probed == [] {
      NothingPicked(pick);
    } else {
      var init, last := probed[..|probed| - 1], probed[|probed| - 1];
      ErrorsInOrder(cache, init);
      OneMorePicked(init, ErrorsOf(cache, init), pick, last);
      assert probed == init + [last];
    }
  }

  function ErrorIn(cache: Cache, call: CannedCall): Option<(string, string)> {
    if call.Key() in cache && cache[call.Key()].Failed? && !call.chaosSeeded then Some((call.scenario, call.tool))
    else None
  }

  // ----- The stack, by its last lag reading -----

  /** The dispatcher's lag was read here. */
  predicate LagRead(cache: Cache, probed: seq<CannedCall>, i: nat)
    requires InCache(cache, probed) && i < |probed|
  {
    && probed[i].tool == "get_consumer_lag"
    && "consumer_group" in probed[i].arguments && probed[i].arguments["consumer_group"] == Str("worker-dispatcher")
    && cache[probed[i].Key()].Reading?
  }

  predicate LastLagRead(cache: Cache, probed: seq<CannedCall>, i: nat)
    requires InCache(cache, probed)
  {
    i < |probed| && LagRead(cache, probed, i) && forall j :: i < j < |probed| ==> !LagRead(cache, probed, j)
  }

  /** The lag is known and the time it was taken is not empty. */
  predicate SaysMeasured(payload: map<string, Value>) {
    && "lag_known" in payload && payload["lag_known"] == Bool(true)
    && "measured_at" in payload && NotEmpty(payload["measured_at"])
  }

  /** The last lag reading of the run says this. */
  ghost predicate LastSays(cache: Cache, probed: seq<CannedCall>, measured: bool)
    requires InCache(cache, probed)
  {
    exists i: nat ::
      LastLagRead(cache, probed, i) && (SaysMeasured(cache[probed[i].Key()].payload) <==> measured)
  }

  lemma MeasuredIs(payload: map<string, Value>)
    ensures Measured(payload) <==> SaysMeasured(payload)
  {
  }

  lemma OneMoreCall(cache: Cache, probed: seq<CannedCall>, i: nat)
    requires InCache(cache, probed) && probed != []
    ensures i < |probed| - 1 ==> (LagRead(cache, probed, i) <==> LagRead(cache, probed[..|probed| - 1], i))
  {
  }

  lemma LastOfFewer(cache: Cache, probed: seq<CannedCall>, i: nat)
    requires InCache(cache, probed) && probed != [] && !LagRead(cache, probed, |probed| - 1)
    ensures LastLagRead(cache, probed, i) <==> LastLagRead(cache, probed[..|probed| - 1], i)
  {
    var fewer := probed[..|probed| - 1];
    forall j: nat | j < |fewer| ensures LagRead(cache, probed, j) <==> LagRead(cache, fewer, j) {
      OneMoreCall(cache, probed, j);
    }
    if LastLagRead(cache, fewer, i) {
      forall j | i < j < |probed| ensures !LagRead(cache, probed, j) {
        assert j < |fewer| ==> !LagRead(cache, fewer, j);
      }
    }
  }

  /** The stack is the one its last lag reading speaks of, and unknown when there is none. */
  lemma {:induction false} StackOfTheLast(cache: Cache, probed: seq<CannedCall>)
    requires InCache(cache, probed)
    ensures forall i: nat :: LastLagRead(cache, probed, i) ==>
      StackSeen(cache, probed) == if Measured(cache[probed[i].Key()].payload) then Warm else Cold
    ensures StackSeen(cache, probed) != Unknown ==> exists i: nat :: LastLagRead(cache, probed, i)
  {
    if probed != [] {
      var n := |probed| - 1;
      if LagRead(cache, probed, n) {
        assert LastLagRead(cache, probed, n);
      } else {
        StackOfTheLast(cache, probed[..n]);
        forall i: nat ensures LastLagRead(cache, probed, i) <==> LastLagRead(cache, probed[..n], i) {
          LastOfFewer(cache, probed, i);
        }
      }
    }
  }

  lemma StackByReading(cache: Cache, probed: seq<CannedCall>)
    requires InCache(cache, probed)
    ensures StackSeen(cache, probed) == Warm <==> LastSays(cache, probed, true)
    ensures StackSeen(cache, probed) == Cold <==> LastSays(cache, probed, false)
  {
    StackOfTheLast(cache, probed);
    forall i: nat | LastLagRead(cache, probed, i) {
      MeasuredIs(cache[probed[i].Key()].payload);
    }
  }

  // ----- The law -----

  /** A row whose context speaks of the stack goes only on the stack it speaks of; a busy-window row never goes. */
  ghost predicate MayGo(cache: Cache, probed: seq<CannedCall>, context: Context)
    requires InCache(cache, probed)
  {
    match context
    case ColdStack => LastSays(cache, probed, false)
    case WarmStack => LastSays(cache, probed, true)
    case BusyWindow => false
    case _ => true
  }

  lemma JustifiedOnce(table: Justified, key: DriftKey, context: Context)
    requires JustifiedAs(table, key, context)
    ensures ContextOf(table, key) == context
  {
  }

  lemma HeldMayGo(cache: Cache, probed: seq<CannedCall>, context: Context)
    requires InCache(cache, probed)
    ensures HeldToTheRatchet(context, StackSeen(cache, probed)) <==> MayGo(cache, probed, context)
  {
    StackByReading(cache, probed);
  }

  /** From the replies to the ledger: blessing a run deletes a recorded key exactly when its pair was compared and
      never refused, no comparison showed its drift, and its context lets it go. */
  lemma DeletedExactly(
      spell: Spelling, table: Justified, prior: set<DriftKey>, result: ProbeResult, cache: Cache,
      probed: seq<CannedCall>, key: DriftKey, context: Context)
    requires Reports(result, cache, probed) && key in prior && JustifiedAs(table, key, context)
    ensures key !in Blessed(table, prior, ObservationOf(spell, result)) <==>
      && WasCompared(cache, probed, (key.scenario, key.tool)) && !WasRefused(cache, probed, (key.scenario, key.tool))
      && !DriftSeen(spell, cache, probed, key)
      && MayGo(cache, probed, context)
  {
    DroppedExactly(spell, table, prior, result, cache, probed, key);
    ObservedIffShown(spell, result, cache, probed, key);
    SeenIsShown(spell, cache, probed, key);
    PairsByReply(cache, probed, (key.scenario, key.tool));
    JustifiedOnce(table, key, context);
    HeldMayGo(cache, probed, context);
  }

  /** And adds a key exactly when some comparison showed its drift. */
  lemma AddedExactly(
      spell: Spelling, table: Justified, prior: set<DriftKey>, result: ProbeResult, cache: Cache,
      probed: seq<CannedCall>, key: DriftKey)
    requires Reports(result, cache, probed) && key !in prior
    ensures key in Blessed(table, prior, ObservationOf(spell, result)) <==> DriftSeen(spell, cache, probed, key)
  {
    ObservedIffShown(spell, result, cache, probed, key);
    SeenIsShown(spell, cache, probed, key);
    BlessKeeps(table, prior, ObservationOf(spell, result));
  }

  /** The script writes a ledger exactly when the platform refused no call, the run has no error, and every pair the
      caller sets aside was compared. */
  lemma BlessedExactly(
      spell: Spelling, table: Justified, prior: set<DriftKey>, result: ProbeResult, cache: Cache,
      probed: seq<CannedCall>, notFresh: set<(string, string)>)
    requires Reports(result, cache, probed)
    ensures BlessRun(spell, table, prior, result, notFresh).Wrote? <==>
      && (forall call <- probed :: !cache[call.Key()].RateLimited?)
      && result.errors == []
      && forall pair <- notFresh :: WasCompared(cache, probed, pair)
  {
    forall pair ensures pair in result.rateLimited <==> WasRefused(cache, probed, pair) {
      EndsArePairs(cache, probed, pair, Limited);
      PairsByReply(cache, probed, pair);
    }
    forall pair ensures pair in PairsEnding(cache, probed, Compared) <==> WasCompared(cache, probed, pair) {
      EndsArePairs(cache, probed, pair, Compared);
      PairsByReply(cache, probed, pair);
    }
    if result.rateLimited == {} {
      forall call | call in probed ensures !cache[call.Key()].RateLimited? {
        assert call.Pair() !in result.rateLimited;
        assert !WasRefused(cache, probed, call.Pair());
      }
    }
  }
}
