/** The recording half of evals/recorder.py with the probe merge of evals/dossier.py: which calls
    are made, under which key each answer is kept, and what a lookup finds. */
module Recorder {
  import opened Wrappers
  import opened Json
  import opened Rebase
  import opened Sorting
  import Texts

  type Arguments = map<string, Json<string>>

  datatype Tier = Read | Tier1 | Tier2

  /** What the recorder borrows: the tool registry with each tool's tier, the wire form of a call's
      arguments (none when they do not validate), their canonical body and its hash. */
  datatype Tools = Tools(
    registry: map<string, Tier>,
    wire: (string, Arguments) -> Option<Arguments>,
    body: Arguments -> string,
    hash: string -> string)
  {
    function Digest(arguments: Arguments): string {
      hash(body(arguments))
    }

    /** The tool's name, a space, and the digest of the canonical argument body. */
    function CallKey(tool: string, arguments: Arguments): string {
      tool + " " + Digest(arguments)
    }

    function Wired(tool: string, arguments: Arguments): Option<Arguments> {
      if tool in registry then wire(tool, arguments) else None
    }
  }

  /** Where no tool's name holds a space, a key gives back the tool and the digest it was made from. */
  lemma KeyNamesItsTool(t: Tools, tool: string, arguments: Arguments, tool': string, arguments': Arguments)
    requires ' ' !in tool && ' ' !in tool'
    ensures t.CallKey(tool, arguments) == t.CallKey(tool', arguments') <==>
      tool == tool' && t.Digest(arguments) == t.Digest(arguments')
  {
    var key, key' := t.CallKey(tool, arguments), t.CallKey(tool', arguments');
    assert forall i :: 0 <= i < |tool| ==> key[i] == tool[i];
    assert forall i :: 0 <= i < |tool'| ==> key'[i] == tool'[i];
    assert key[|tool|] == ' ' && key'[|tool'|] == ' ';
    if key == key' {
      assert |tool| == |tool'|;
      assert key[..|tool|] == tool && key'[..|tool'|] == tool';
      assert key[|tool| + 1..] == t.Digest(arguments) && key'[|tool'| + 1..] == t.Digest(arguments');
    }
  }

  // ----- Merging probes -----

  datatype Probe = Probe(tool: string, arguments: Arguments, origins: seq<string>)

  predicate SameCall(a: Probe, b: Probe) {
    a.tool == b.tool && a.arguments == b.arguments
  }

  ghost predicate DistinctCalls(probes: seq<Probe>) {
    forall i, j :: 0 <= i < j < |probes| ==> !SameCall(probes[i], probes[j])
  }

  function Without(origins: seq<string>, known: seq<string>): seq<string> {
    if origins == [] then [] else (if origins[0] in known then [] else [origins[0]]) + Without(origins[1..], known)
  }

  function Joined(existing: Probe, probe: Probe): Probe {
    existing.(origins := existing.origins + Without(probe.origins, existing.origins))
  }

  /** One more probe: joined to the entry for the same call, or appended. */
  function MergeOne(merged: seq<Probe>, probe: Probe): seq<Probe> {
    if merged == [] then [probe]
    else if SameCall(merged[0], probe) then [Joined(merged[0], probe)] + merged[1..]
    else [merged[0]] + MergeOne(merged[1..], probe)
  }

  function MergeInto(merged: seq<Probe>, probes: seq<Probe>): seq<Probe> {
    if probes == [] then merged
    else MergeOne(MergeInto(merged, probes[..|probes| - 1]), probes[|probes| - 1])
  }

  function Merge(probes: seq<Probe>): seq<Probe> {
    MergeInto([], probes)
  }

  ghost predicate HasCall(merged: seq<Probe>, probe: Probe) {
    exists i :: 0 <= i < |merged| && SameCall(merged[i], probe)
  }

  ghost predicate JoinedIn(out: seq<Probe>, merged: seq<Probe>, probe: Probe) {
    |out| == |merged| && forall i ::
      0 <= i < |merged| ==> out[i] == if SameCall(merged[i], probe) then Joined(merged[i], probe) else merged[i]
  }

  lemma {:induction false} MergeOneAt(merged: seq<Probe>, probe: Probe)
    requires DistinctCalls(merged)
    ensures if HasCall(merged, probe) then JoinedIn(MergeOne(merged, probe), merged, probe)
      else MergeOne(merged, probe) == merged + [probe]
  {
    if merged != [] {
      var first, rest := merged[0], merged[1..];
      assert merged == [first] + rest;
      if SameCall(first, probe) {
        OthersDiffer(merged, probe);
      } else {
        MergeOneAt(rest, probe);
        CallInRest(first, rest, probe);
      }
    }
  }

  lemma OthersDiffer(merged: seq<Probe>, probe: Probe)
    requires DistinctCalls(merged) && merged != [] && SameCall(merged[0], probe)
    ensures forall i :: 0 < i < |merged| ==> !SameCall(merged[i], probe)
  {
  }

  lemma CallInRest(first: Probe, rest: seq<Probe>, probe: Probe)
    requires !SameCall(first, probe)
    ensures HasCall([first] + rest, probe) <==> HasCall(rest, probe)
  {
    var all := [first] + rest;
    if HasCall(all, probe) {
      var i :| 0 <= i < |all| && SameCall(all[i], probe);
      assert SameCall(rest[i - 1], probe);
    }
    if HasCall(rest, probe) {
      var i :| 0 <= i < |rest| && SameCall(rest[i], probe);
      assert SameCall(all[i + 1], probe);
    }
  }

  lemma MergeOneShape(merged: seq<Probe>, probe: Probe)
    requires DistinctCalls(merged)
    ensures if HasCall(merged, probe) then JoinedIn(MergeOne(merged, probe), merged, probe)
      else MergeOne(merged, probe) == merged + [probe]
    ensures DistinctCalls(MergeOne(merged, probe))
  {
    MergeOneAt(merged, probe);
  }

  lemma {:induction false} MergeKeepsDistinct(merged: seq<Probe>, probes: seq<Probe>)
    requires DistinctCalls(merged)
    ensures DistinctCalls(MergeInto(merged, probes))
  {
    if probes != [] {
      MergeKeepsDistinct(merged, probes[..|probes| - 1]);
      MergeOneShape(MergeInto(merged, probes[..|probes| - 1]), probes[|probes| - 1]);
    }
  }

  lemma {:induction false} MergeInTwo(merged: seq<Probe>, xs: seq<Probe>, ys: seq<Probe>)
    ensures MergeInto(merged, xs + ys) == MergeInto(MergeInto(merged, xs), ys)
  {
    if ys == [] {
      assert xs + ys == xs;
    } else {
      var init, last := ys[..|ys| - 1], ys[|ys| - 1];
      assert (xs + ys)[..|xs + ys| - 1] == xs + init;
      MergeInTwo(merged, xs, init);
    }
  }

  lemma {:induction false} MergeOfDistinct(probes: seq<Probe>)
    requires DistinctCalls(probes)
    ensures Merge(probes) == probes
  {
    if probes != [] {
      var init, last := probes[..|probes| - 1], probes[|probes| - 1];
      MergeOfDistinct(init);
      MergeOneShape(init, last);
      assert probes == init + [last];
    }
  }

  /** Merging is idempotent, and merging a merged half changes nothing. */
  lemma MergeAgain(xs: seq<Probe>, ys: seq<Probe>)
    ensures DistinctCalls(Merge(xs))
    ensures Merge(Merge(xs)) == Merge(xs)
    ensures Merge(xs + ys) == Merge(Merge(xs) + ys)
  {
    MergeKeepsDistinct([], xs);
    MergeOfDistinct(Merge(xs));
    MergeInTwo([], xs, ys);
    MergeInTwo([], Merge(xs), ys);
  }

  lemma {:induction false} WithoutKnown(origins: seq<string>, known: seq<string>, o: string)
    ensures o in Without(origins, known) <==> o in origins && o !in known
  {
    if origins != [] {
      WithoutKnown(origins[1..], known, o);
      assert origins == [origins[0]] + origins[1..];
    }
  }

  predicate CarriesIn(probe: Probe, call: Probe, origin: Option<string>) {
    SameCall(probe, call) && (origin.Some? ==> origin.value in probe.origins)
  }

  /** Some probe for this call carries this reason; with no reason asked for, some probe is for it. */
  ghost predicate Carries(probes: seq<Probe>, call: Probe, origin: Option<string>) {
    exists i :: 0 <= i < |probes| && CarriesIn(probes[i], call, origin)
  }

  lemma CarriesEither(a: seq<Probe>, b: seq<Probe>, call: Probe, origin: Option<string>)
    ensures Carries(a + b, call, origin) <==> Carries(a, call, origin) || Carries(b, call, origin)
  {
    if Carries(a, call, origin) {
      var i :| 0 <= i < |a| && CarriesIn(a[i], call, origin);
      assert (a + b)[i] == a[i];
    }
    if Carries(b, call, origin) {
      var i :| 0 <= i < |b| && CarriesIn(b[i], call, origin);
      assert (a + b)[|a| + i] == b[i];
    }
  }

  lemma {:induction false} OneMoreCarried(merged: seq<Probe>, last: Probe, call: Probe, origin: Option<string>)
    ensures Carries(MergeOne(merged, last), call, origin) <==>
      Carries(merged, call, origin) || CarriesIn(last, call, origin)
  {
    if merged == [] {
      assert [last][0] == last;
    } else {
      var head, tail := merged[0], merged[1..];
      assert merged == [head] + tail;
      CarriesEither([head], tail, call, origin);
      assert [head][0] == head;
      if SameCall(head, last) {
        if origin.Some? {
          WithoutKnown(last.origins, head.origins, origin.value);
        }
        assert [Joined(head, last)][0] == Joined(head, last);
        CarriesEither([Joined(head, last)], tail, call, origin);
      } else {
        OneMoreCarried(tail, last, call, origin);
        CarriesEither([head], MergeOne(tail, last), call, origin);
      }
    }
  }

  /** Merging loses no call and no reason, and invents none. */
  lemma {:induction false} MergeLosesNothing(probes: seq<Probe>, call: Probe, origin: Option<string>)
    ensures Carries(Merge(probes), call, origin) <==> Carries(probes, call, origin)
  {
    if probes != [] {
      var init, last := probes[..|probes| - 1], probes[|probes| - 1];
      assert probes == init + [last];
      MergeLosesNothing(init, call, origin);
      OneMoreCarried(Merge(init), last, call, origin);
      CarriesEither(init, [last], call, origin);
      assert [last][0] == last;
    }
  }

  ghost predicate Dictionary(entries: map<(string, Arguments), Probe>, order: seq<(string, Arguments)>) {
    && (forall k :: k in order <==> k in entries)
    && (forall i, j :: 0 <= i < j < |order| ==> order[i] != order[j])
    && (forall k <- entries :: k == (entries[k].tool, entries[k].arguments))
  }

  /** A dictionary in insertion order and a listing without duplicates take one more probe alike. */
  lemma DictionaryMerge(entries: map<(string, Arguments), Probe>, order: seq<(string, Arguments)>, probe: Probe)
    requires Dictionary(entries, order)
    ensures var key := (probe.tool, probe.arguments);
      if key in entries
      then MergeOne(Listing(entries, order), probe) == Listing(entries[key := Joined(entries[key], probe)], order)
      else MergeOne(Listing(entries, order), probe) == Listing(entries, order) + [probe]
  {
    var before := Listing(entries, order);
    ListingIsDistinct(entries, order);
    MergeOneShape(before, probe);
    if (probe.tool, probe.arguments) in entries {
      KnownProbe(entries, order, probe);
      SamePlaces(MergeOne(before, probe),
        Listing(entries[(probe.tool, probe.arguments) := Joined(entries[(probe.tool, probe.arguments)], probe)],
          order));
    } else {
      NewProbe(entries, order, probe);
    }
  }

  lemma SamePlaces(a: seq<Probe>, b: seq<Probe>)
    requires |a| == |b| && forall i :: 0 <= i < |a| ==> a[i] == b[i]
    ensures a == b
  {
  }

  lemma ListingIsDistinct(entries: map<(string, Arguments), Probe>, order: seq<(string, Arguments)>)
    requires Dictionary(entries, order)
    ensures DistinctCalls(Listing(entries, order))
  {
  }

  lemma NewProbe(entries: map<(string, Arguments), Probe>, order: seq<(string, Arguments)>, probe: Probe)
    requires Dictionary(entries, order) && (probe.tool, probe.arguments) !in entries
    ensures forall i :: 0 <= i < |order| ==> !SameCall(Listing(entries, order)[i], probe)
  {
  }

  lemma KnownProbe(entries: map<(string, Arguments), Probe>, order: seq<(string, Arguments)>, probe: Probe)
    requires Dictionary(entries, order) && (probe.tool, probe.arguments) in entries
    ensures exists at :: 0 <= at < |order| && SameCall(Listing(entries, order)[at], probe)
    ensures var before, key := Listing(entries, order), (probe.tool, probe.arguments);
      var after := Listing(entries[key := Joined(entries[key], probe)], order);
      forall i :: 0 <= i < |order| ==>
        after[i] == if SameCall(before[i], probe) then Joined(before[i], probe) else before[i]
  {
    var at :| 0 <= at < |order| && order[at] == (probe.tool, probe.arguments);
    assert SameCall(Listing(entries, order)[at], probe);
  }

  /** `_merge` as it runs: a dictionary in insertion order, updated probe by probe. */
  method MergeProbes(probes: seq<Probe>) returns (merged: seq<Probe>)
    ensures merged == Merge(probes)
  {
    var entries: map<(string, Arguments), Probe> := map[];
    var order: seq<(string, Arguments)> := [];
    for n := 0 to |probes|
      invariant Dictionary(entries, order)
      invariant Listing(entries, order) == Merge(probes[..n])
    {
      var probe := probes[n];
      var key := (probe.tool, probe.arguments);
      assert probes[..n + 1][..n] == probes[..n];
      DictionaryMerge(entries, order, probe);
      if key !in entries {
        ghost var before := Listing(entries, order);
        entries := entries[key := probe];
        order := order + [key];
        assert Listing(entries, order) == before + [probe];
      } else {
        var existing := entries[key];
        entries := entries[key := Probe(probe.tool, probe.arguments,
          existing.origins + Without(probe.origins, existing.origins))];
      }
    }
    assert probes[..|probes|] == probes;
    merged := Listing(entries, order);
  }

  function Listing(entries: map<(string, Arguments), Probe>, order: seq<(string, Arguments)>): seq<Probe>
    requires forall k <- order :: k in entries
  {
    seq(|order|, i requires 0 <= i < |order| => entries[order[i]])
  }

  // ----- Wiring probes -----

  /** The probes that validate, each on its wired arguments, in order. */
  function WiredOnly(t: Tools, probes: seq<Probe>): seq<Probe> {
    if probes == [] then []
    else
      var last := probes[|probes| - 1];
      WiredOnly(t, probes[..|probes| - 1]) +
      if t.Wired(last.tool, last.arguments).Some?
      then [Probe(last.tool, t.Wired(last.tool, last.arguments).value, last.origins)] else []
  }

  ghost predicate AllWired(t: Tools, probes: seq<Probe>) {
    forall i :: 0 <= i < |probes| ==> t.Wired(probes[i].tool, probes[i].arguments) == Some(probes[i].arguments)
  }

  /** `wire_probes`: the wired probes merged again, and one note for each that has no wire form. */
  method WireProbes(t: Tools, probes: seq<Probe>) returns (wired: seq<Probe>, notes: seq<Probe>)
    ensures wired == Merge(WiredOnly(t, probes))
    ensures |notes| + |WiredOnly(t, probes)| == |probes|
    ensures forall i :: 0 <= i < |notes| ==> notes[i] in probes && t.Wired(notes[i].tool, notes[i].arguments).None?
  {
    var found: seq<Probe> := [];
    notes := [];
    for n := 0 to |probes|
      invariant found == WiredOnly(t, probes[..n])
      invariant |notes| + |found| == n
      invariant forall i :: 0 <= i < |notes| ==> notes[i] in probes && t.Wired(notes[i].tool, notes[i].arguments).None?
    {
      var probe := probes[n];
      assert probes[..n + 1][..n] == probes[..n];
      if probe.tool !in t.registry {
        notes := notes + [probe];
      } else {
        var arguments := t.wire(probe.tool, probe.arguments);
        if arguments.None? {
          notes := notes + [probe];
        } else {
          found := found + [Probe(probe.tool, arguments.value, probe.origins)];
        }
      }
    }
    assert probes[..|probes|] == probes;
    wired := MergeProbes(found);
  }

  /** The wire form of each of these calls is its own wire form. */
  ghost predicate WiresOnce(t: Tools, probes: seq<Probe>) {
    forall probe <- probes :: WiredForm(t, probe.tool, probe.arguments)
  }

  predicate WiredForm(t: Tools, tool: string, arguments: Arguments) {
    t.Wired(tool, arguments).Some? ==> t.Wired(tool, t.Wired(tool, arguments).value) == t.Wired(tool, arguments)
  }

  lemma {:induction false} WiringTwice(t: Tools, probes: seq<Probe>)
    requires WiresOnce(t, probes)
    ensures AllWired(t, WiredOnly(t, probes))
  {
    if probes != [] {
      var init, last := probes[..|probes| - 1], probes[|probes| - 1];
      assert probes == init + [last];
      WiringTwice(t, init);
      assert WiredForm(t, last.tool, last.arguments);
    }
  }

  lemma {:induction false} WiredStay(t: Tools, probes: seq<Probe>)
    requires AllWired(t, probes)
    ensures WiredOnly(t, probes) == probes
  {
    if probes != [] {
      var init, last := probes[..|probes| - 1], probes[|probes| - 1];
      assert probes == init + [last];
      WiredStay(t, init);
    }
  }

  /** Wired probes are pairwise different calls, already in wired form: wiring them again changes nothing. */
  lemma WireProbesSettles(t: Tools, probes: seq<Probe>)
    requires WiresOnce(t, probes)
    ensures var wired := Merge(WiredOnly(t, probes));
      DistinctCalls(wired) && AllWired(t, wired) && Merge(WiredOnly(t, wired)) == wired
  {
    var found := WiredOnly(t, probes);
    var wired := Merge(found);
    MergeKeepsDistinct([], found);
    WiringTwice(t, probes);
    forall i | 0 <= i < |wired| ensures t.Wired(wired[i].tool, wired[i].arguments) == Some(wired[i].arguments) {
      assert CarriesIn(wired[i], wired[i], None);
      MergeLosesNothing(found, wired[i], None);
      var j :| 0 <= j < |found| && CarriesIn(found[j], wired[i], None);
    }
    WiredStay(t, wired);
    MergeOfDistinct(wired);
  }

  // ----- Reading the world -----

  /** One content block: a JSON object, with whether it still has the platform's own bytes, or any other. */
  datatype Block = Document(payload: Payload, verbatim: bool) | Opaque(raw: string)

  datatype Reply = Reply(blocks: seq<Block>, isError: bool)

  datatype Answer = Answered(reply: Reply) | Unreached(detail: string)

  /** When a call was made: about the recording session, never about the world. */
  datatype Session = Session(startedAt: int, completedAt: int, durationMs: int)

  datatype RecordedCall = RecordedCall(
    tool: string, arguments: Arguments, key: string, reply: Reply, origins: seq<string>, session: Session)

  datatype RecordedFailure = RecordedFailure(tool: string, arguments: Arguments, detail: string)

  /** The recorded calls of a probe list as they are made, one session after another. */
  function CallsMade(
      t: Tools, probes: seq<Probe>, ask: (string, Arguments) -> Answer, sessions: nat -> Session): seq<RecordedCall> {
    if probes == [] then []
    else
      var n, last := |probes| - 1, probes[|probes| - 1];
      var answer := ask(last.tool, last.arguments);
      CallsMade(t, probes[..n], ask, sessions) +
      if answer.Answered?
      then [RecordedCall(last.tool, last.arguments, t.CallKey(last.tool, last.arguments), answer.reply, last.origins,
        sessions(n))]
      else []
  }

  function FailuresMet(probes: seq<Probe>, ask: (string, Arguments) -> Answer): seq<RecordedFailure> {
    if probes == [] then []
    else
      var n, last := |probes| - 1, probes[|probes| - 1];
      var answer := ask(last.tool, last.arguments);
      FailuresMet(probes[..n], ask) +
      if answer.Unreached? then [RecordedFailure(last.tool, last.arguments, answer.detail)] else []
  }

  predicate KeyLeq(a: RecordedCall, b: RecordedCall) {
    Texts.Leq(a.key, b.key)
  }

  predicate FailureLeq(body: Arguments -> string, a: RecordedFailure, b: RecordedFailure) {
    Texts.Less(a.tool, b.tool) || (a.tool == b.tool && Texts.Leq(body(a.arguments), body(b.arguments)))
  }

  lemma KeyLeqIsTotal()
    ensures TotalPreorder(KeyLeq)
  {
    forall a: RecordedCall, b: RecordedCall ensures KeyLeq(a, b) || KeyLeq(b, a) { Texts.Total(a.key, b.key); }
    forall a: RecordedCall, b: RecordedCall, c: RecordedCall | KeyLeq(a, b) && KeyLeq(b, c) ensures KeyLeq(a, c) {
      Texts.Transitive(a.key, b.key, c.key);
    }
  }

  lemma FailureLeqIsTotal(body: Arguments -> string)
    ensures TotalPreorder((a, b) => FailureLeq(body, a, b))
  {
    forall a: RecordedFailure, b: RecordedFailure ensures FailureLeq(body, a, b) || FailureLeq(body, b, a) {
      Texts.Total(a.tool, b.tool);
      Texts.Total(body(a.arguments), body(b.arguments));
    }
    forall a: RecordedFailure, b: RecordedFailure, c: RecordedFailure | FailureLeq(body, a, b) && FailureLeq(body, b, c)
      ensures FailureLeq(body, a, c)
    {
      FailureLeqChain(body, a, b, c);
    }
  }

  lemma FailureLeqChain(body: Arguments -> string, a: RecordedFailure, b: RecordedFailure, c: RecordedFailure)
    requires FailureLeq(body, a, b) && FailureLeq(body, b, c)
    ensures FailureLeq(body, a, c)
  {
    Texts.Total(a.tool, b.tool);
    Texts.Total(b.tool, c.tool);
    Texts.Transitive(a.tool, b.tool, c.tool);
    if a.tool == c.tool {
      if a.tool != b.tool {
        Texts.Antisymmetric(a.tool, b.tool);
      }
      Texts.Transitive(body(a.arguments), body(b.arguments), body(c.arguments));
    }
  }

  /** `record_calls`: every probe called once, then calls sorted by key and failures by call. */
  method RecordCalls(t: Tools, probes: seq<Probe>, ask: (string, Arguments) -> Answer, sessions: nat -> Session)
    returns (calls: seq<RecordedCall>, failures: seq<RecordedFailure>)
    ensures SortedBy(KeyLeq, calls) && multiset(calls) == multiset(CallsMade(t, probes, ask, sessions))
    ensures SortedBy((a, b) => FailureLeq(t.body, a, b), failures)
      && multiset(failures) == multiset(FailuresMet(probes, ask))
  {
    calls, failures := [], [];
    for n := 0 to |probes|
      invariant calls == CallsMade(t, probes[..n], ask, sessions)
      invariant failures == FailuresMet(probes[..n], ask)
    {
      var probe := probes[n];
      assert probes[..n + 1][..n] == probes[..n];
      var answer := ask(probe.tool, probe.arguments);
      match answer
      case Unreached(detail) =>
        failures := failures + [RecordedFailure(probe.tool, probe.arguments, detail)];
      case Answered(reply) =>
        calls := calls + [RecordedCall(
          probe.tool, probe.arguments, t.CallKey(probe.tool, probe.arguments), reply, probe.origins, sessions(n))];
    }
    assert probes[..|probes|] == probes;
    KeyLeqIsTotal();
    FailureLeqIsTotal(t.body);
    calls := Sort(KeyLeq, calls);
    failures := Sort((a, b) => FailureLeq(t.body, a, b), failures);
  }

  /** What a recorded call says of the world: everything but its session. */
  datatype WorldCall = WorldCall(tool: string, arguments: Arguments, key: string, reply: Reply, origins: seq<string>)

  function OfWorld(call: RecordedCall): WorldCall {
    WorldCall(call.tool, call.arguments, call.key, call.reply, call.origins)
  }

  function World(calls: seq<RecordedCall>): seq<WorldCall> {
    seq(|calls|, i requires 0 <= i < |calls| => OfWorld(calls[i]))
  }

  /** What a probe's answer puts in the document. */
  function CallOf(t: Tools, probe: Probe, ask: (string, Arguments) -> Answer): Option<WorldCall> {
    match ask(probe.tool, probe.arguments)
    case Answered(reply) =>
      Some(WorldCall(probe.tool, probe.arguments, t.CallKey(probe.tool, probe.arguments), reply, probe.origins))
    case Unreached(_) => None
  }

  lemma CallsMadeStep(t: Tools, probes: seq<Probe>, ask: (string, Arguments) -> Answer, sessions: nat -> Session)
    requires probes != []
    ensures var last := CallOf(t, probes[|probes| - 1], ask);
      World(CallsMade(t, probes, ask, sessions))
        == World(CallsMade(t, probes[..|probes| - 1], ask, sessions)) + if last.Some? then [last.value] else []
  {
  }

  lemma {:induction false} CallsMadeAre(
      t: Tools, probes: seq<Probe>, ask: (string, Arguments) -> Answer, sessions: nat -> Session, c: WorldCall)
    ensures c in World(CallsMade(t, probes, ask, sessions)) <==>
      exists probe <- probes :: CallOf(t, probe, ask) == Some(c)
  {
    if probes != [] {
      var init, last := probes[..|probes| - 1], probes[|probes| - 1];
      assert probes == init + [last];
      CallsMadeAre(t, init, ask, sessions, c);
      CallsMadeStep(t, probes, ask, sessions);
      assert last in probes;
    }
  }

  lemma {:induction false} FailuresMetAre(probes: seq<Probe>, ask: (string, Arguments) -> Answer, f: RecordedFailure)
    ensures f in FailuresMet(probes, ask) <==>
      exists probe <- probes ::
        ask(probe.tool, probe.arguments) == Unreached(f.detail)
          && f == RecordedFailure(probe.tool, probe.arguments, f.detail)
  {
    if probes != [] {
      var init, last := probes[..|probes| - 1], probes[|probes| - 1];
      assert probes == init + [last];
      FailuresMetAre(init, ask, f);
    }
  }

  lemma EarlierIsAnother(probes: seq<Probe>, probe: Probe)
    requires DistinctCalls(probes) && probes != [] && probe in probes[..|probes| - 1]
    ensures !SameCall(probe, probes[|probes| - 1])
  {
    var k :| 0 <= k < |probes| - 1 && probes[k] == probe;
  }

  /** Different calls of the list have different keys. */
  ghost predicate KeysSeparate(t: Tools, probes: seq<Probe>) {
    forall a <- probes, b <- probes ::
      t.CallKey(a.tool, a.arguments) == t.CallKey(b.tool, b.arguments) ==> SameCall(a, b)
  }

  /** Different arguments of the list have different canonical bodies. */
  ghost predicate BodiesSeparate(t: Tools, probes: seq<Probe>) {
    forall a <- probes, b <- probes :: t.body(a.arguments) == t.body(b.arguments) ==> a.arguments == b.arguments
  }

  lemma {:induction false} KeysDiffer(
      t: Tools, probes: seq<Probe>, ask: (string, Arguments) -> Answer, sessions: nat -> Session, i: nat, j: nat)
    requires KeysSeparate(t, probes) && DistinctCalls(probes)
    requires i < j < |CallsMade(t, probes, ask, sessions)|
    ensures CallsMade(t, probes, ask, sessions)[i].key != CallsMade(t, probes, ask, sessions)[j].key
  {
    var init, last := probes[..|probes| - 1], probes[|probes| - 1];
    var before, all := CallsMade(t, init, ask, sessions), CallsMade(t, probes, ask, sessions);
    assert probes == init + [last];
    if j < |before| {
      KeysDiffer(t, init, ask, sessions, i, j);
    } else {
      assert World(before)[i].key == all[i].key && all[j].key == t.CallKey(last.tool, last.arguments);
      EarlierKeyDiffers(t, probes, ask, World(before)[i], sessions);
    }
  }

  lemma EarlierKeyDiffers(
      t: Tools, probes: seq<Probe>, ask: (string, Arguments) -> Answer, c: WorldCall, sessions: nat -> Session)
    requires KeysSeparate(t, probes) && DistinctCalls(probes) && probes != []
    requires c in World(CallsMade(t, probes[..|probes| - 1], ask, sessions))
    ensures c.key != t.CallKey(probes[|probes| - 1].tool, probes[|probes| - 1].arguments)
  {
    var init, last := probes[..|probes| - 1], probes[|probes| - 1];
    CallsMadeAre(t, init, ask, sessions, c);
    var probe :| probe in init && CallOf(t, probe, ask) == Some(c);
    EarlierIsAnother(probes, probe);
    assert probes == init + [last] && probe in probes && last in probes;
  }

  predicate KeyBefore(a: WorldCall, b: WorldCall) {
    Texts.Less(a.key, b.key)
  }

  lemma KeyBeforeIsStrict()
    ensures StrictOrder(KeyBefore)
  {
    forall a: WorldCall, b: WorldCall, c: WorldCall | KeyBefore(a, b) && KeyBefore(b, c) ensures KeyBefore(a, c) {
      Texts.Transitive(a.key, b.key, c.key);
      if a.key == c.key {
        Texts.Antisymmetric(a.key, b.key);
      }
    }
  }

  /** What `RecordCalls` promises of its calls. */
  ghost predicate IsRecording(
    t: Tools, probes: seq<Probe>, ask: (string, Arguments) -> Answer, sessions: nat -> Session,
    calls: seq<RecordedCall>)
  {
    SortedBy(KeyLeq, calls) && multiset(calls) == multiset(CallsMade(t, probes, ask, sessions))
  }

  lemma RecordingIsOrdered(
      t: Tools, probes: seq<Probe>, ask: (string, Arguments) -> Answer, sessions: nat -> Session,
      calls: seq<RecordedCall>)
    requires KeysSeparate(t, probes) && DistinctCalls(probes) && IsRecording(t, probes, ask, sessions, calls)
    ensures Ordered(KeyBefore, World(calls))
    ensures forall c :: c in World(calls) <==> exists probe <- probes :: CallOf(t, probe, ask) == Some(c)
  {
    var made := CallsMade(t, probes, ask, sessions);
    forall i, j | 0 <= i < j < |made| ensures made[i].key != made[j].key { KeysDiffer(t, probes, ask, sessions, i, j); }
    forall i, j | 0 <= i < j < |calls| ensures KeyBefore(World(calls)[i], World(calls)[j]) {
      StillOnceEach(made, calls, i, j);
      assert KeyLeq(calls[i], calls[j]);
      assert calls[i] in multiset(made) && calls[j] in multiset(made);
    }
    forall c ensures c in World(calls) <==> exists probe <- probes :: CallOf(t, probe, ask) == Some(c) {
      CallsMadeAre(t, probes, ask, sessions, c);
      WorldMembers(calls, made, c);
    }
  }

  lemma WorldMembers(a: seq<RecordedCall>, b: seq<RecordedCall>, c: WorldCall)
    requires multiset(a) == multiset(b)
    ensures c in World(a) <==> c in World(b)
  {
    if c in World(a) {
      var i :| 0 <= i < |a| && World(a)[i] == c;
      assert a[i] in multiset(b);
      var j :| 0 <= j < |b| && b[j] == a[i];
      assert World(b)[j] == c;
    }
    if c in World(b) {
      var i :| 0 <= i < |b| && World(b)[i] == c;
      assert b[i] in multiset(a);
      var j :| 0 <= j < |a| && a[j] == b[i];
      assert World(a)[j] == c;
    }
  }

  // ----- The failures likewise -----

  lemma {:induction false} FailedCallsDiffer(probes: seq<Probe>, ask: (string, Arguments) -> Answer, i: nat, j: nat)
    requires DistinctCalls(probes) && i < j < |FailuresMet(probes, ask)|
    ensures var a, b := FailuresMet(probes, ask)[i], FailuresMet(probes, ask)[j];
      a.tool != b.tool || a.arguments != b.arguments
  {
    var init := probes[..|probes| - 1];
    var before := FailuresMet(init, ask);
    if j < |before| {
      FailedCallsDiffer(init, ask, i, j);
    } else {
      FailuresMetAre(init, ask, before[i]);
      var probe :| probe in init && before[i] == RecordedFailure(probe.tool, probe.arguments, before[i].detail);
      EarlierIsAnother(probes, probe);
    }
  }

  predicate FailureBefore(body: Arguments -> string, a: RecordedFailure, b: RecordedFailure) {
    FailureLeq(body, a, b) && !FailureLeq(body, b, a)
  }

  lemma FailureBeforeIsStrict(body: Arguments -> string)
    ensures StrictOrder((a, b) => FailureBefore(body, a, b))
  {
    forall a: RecordedFailure, b: RecordedFailure, c: RecordedFailure | FailureBefore(body, a, b)
      && FailureBefore(body, b, c)
      ensures FailureBefore(body, a, c)
    {
      FailureLeqChain(body, a, b, c);
      if FailureLeq(body, c, a) {
        FailureLeqChain(body, c, a, b);
      }
    }
  }

  lemma FailureOfAProbe(probes: seq<Probe>, ask: (string, Arguments) -> Answer, f: RecordedFailure)
    requires f in FailuresMet(probes, ask)
    ensures exists probe <- probes :: probe.tool == f.tool && probe.arguments == f.arguments
  {
    FailuresMetAre(probes, ask, f);
  }

  lemma FailuresAreOrdered(
      t: Tools, probes: seq<Probe>, ask: (string, Arguments) -> Answer, failures: seq<RecordedFailure>)
    requires BodiesSeparate(t, probes) && DistinctCalls(probes)
    requires SortedBy((a, b) => FailureLeq(t.body, a, b), failures)
      && multiset(failures) == multiset(FailuresMet(probes, ask))
    ensures Ordered((a, b) => FailureBefore(t.body, a, b), failures)
  {
    var met := FailuresMet(probes, ask);
    forall i, j | 0 <= i < j < |met| ensures met[i] != met[j] { FailedCallsDiffer(probes, ask, i, j); }
    forall i, j | 0 <= i < j < |failures| ensures FailureBefore(t.body, failures[i], failures[j]) {
      var a, b := failures[i], failures[j];
      StillOnceEach(met, failures, i, j);
      assert a in multiset(met) && b in multiset(met);
      var k, l :| 0 <= k < |met| && 0 <= l < |met| && met[k] == a && met[l] == b;
      FailedCallsDiffer(probes, ask, if k < l then k else l, if k < l then l else k);
      assert FailureLeq(t.body, a, b);
      FailureOfAProbe(probes, ask, a);
      FailureOfAProbe(probes, ask, b);
      if FailureLeq(t.body, b, a) {
        if Texts.Less(a.tool, b.tool) && Texts.Less(b.tool, a.tool) {
          Texts.Antisymmetric(a.tool, b.tool);
        } else {
          Texts.Antisymmetric(t.body(a.arguments), t.body(b.arguments));
        }
      }
    }
  }

  lemma FailuresIgnoreOrder(
      t: Tools, ps: seq<Probe>, qs: seq<Probe>, ask: (string, Arguments) -> Answer,
      failures: seq<RecordedFailure>, failures': seq<RecordedFailure>)
    requires BodiesSeparate(t, ps) && DistinctCalls(ps) && DistinctCalls(qs) && multiset(ps) == multiset(qs)
    requires SortedBy((a, b) => FailureLeq(t.body, a, b), failures)
      && multiset(failures) == multiset(FailuresMet(ps, ask))
    requires SortedBy((a, b) => FailureLeq(t.body, a, b), failures')
      && multiset(failures') == multiset(FailuresMet(qs, ask))
    ensures failures == failures'
  {
    assert forall probe :: probe in ps <==> probe in multiset(ps);
    assert forall probe :: probe in qs <==> probe in multiset(qs);
    FailuresAreOrdered(t, ps, ask, failures);
    FailuresAreOrdered(t, qs, ask, failures');
    forall f ensures f in failures <==> f in failures' {
      FailuresMetAre(ps, ask, f);
      FailuresMetAre(qs, ask, f);
      assert f in failures <==> f in multiset(failures);
      assert f in failures' <==> f in multiset(failures');
    }
    FailureBeforeIsStrict(t.body);
    OneListing((a, b) => FailureBefore(t.body, a, b), failures, failures');
  }

  /** A recording does not depend on the order its calls were derived in: two permutations of one
      wired probe list give, against one platform, the same calls up to their session times. */
  lemma RecordingIgnoresOrder(
      t: Tools, ps: seq<Probe>, qs: seq<Probe>, ask: (string, Arguments) -> Answer,
      sessions: nat -> Session, sessions': nat -> Session, calls: seq<RecordedCall>, calls': seq<RecordedCall>)
    requires KeysSeparate(t, ps) && DistinctCalls(ps) && DistinctCalls(qs) && multiset(ps) == multiset(qs)
    requires IsRecording(t, ps, ask, sessions, calls) && IsRecording(t, qs, ask, sessions', calls')
    ensures World(calls) == World(calls')
  {
    assert forall probe :: probe in ps <==> probe in multiset(ps);
    assert forall probe :: probe in qs <==> probe in multiset(qs);
    RecordingIsOrdered(t, ps, ask, sessions, calls);
    RecordingIsOrdered(t, qs, ask, sessions', calls');
    KeyBeforeIsStrict();
    OneListing(KeyBefore, World(calls), World(calls'));
  }

  // ----- The fingerprint -----

  /** A recording as it is filed: its calls and failures, where it was taken, and whatever else is written
      about the world (scenario, label, notes, findings). */
  datatype Recording<Rest, Provenance> = Recording(
    rest: Rest, calls: seq<RecordedCall>, failures: seq<RecordedFailure>, provenance: Provenance)

  /** The document without its provenance and the sessions of its calls. */
  datatype Timeless<Rest> = Timeless(rest: Rest, calls: seq<WorldCall>, failures: seq<RecordedFailure>)

  function TimelessOf<Rest, Provenance>(r: Recording<Rest, Provenance>): Timeless<Rest> {
    Timeless(r.rest, World(r.calls), r.failures)
  }

  /** `world_fingerprint`, for any digest of documents. */
  function Fingerprint<Rest, Provenance>(digest: Timeless<Rest> -> string, r: Recording<Rest, Provenance>): string {
    digest(TimelessOf(r))
  }

  /** What `record_calls` leaves of these probes in a recording. */
  ghost predicate Records<Rest, Provenance>(
    t: Tools, probes: seq<Probe>, ask: (string, Arguments) -> Answer, sessions: nat -> Session,
    r: Recording<Rest, Provenance>)
  {
    && IsRecording(t, probes, ask, sessions, r.calls)
    && SortedBy((a, b) => FailureLeq(t.body, a, b), r.failures)
    && multiset(r.failures) == multiset(FailuresMet(probes, ask))
  }

  /** Recorded twice, in whatever order, at whatever times and with whatever provenance, one platform's world
      has one fingerprint; and it has another where the documents differ in anything else, for a digest that
      tells these two apart. */
  lemma OneWorldOneFingerprint<Rest(!new), Provenance>(
      t: Tools, ps: seq<Probe>, qs: seq<Probe>, ask: (string, Arguments) -> Answer,
      sessions: nat -> Session, sessions': nat -> Session,
      digest: Timeless<Rest> -> string, r: Recording<Rest, Provenance>, r': Recording<Rest, Provenance>)
    requires KeysSeparate(t, ps) && BodiesSeparate(t, ps)
    requires DistinctCalls(ps) && DistinctCalls(qs) && multiset(ps) == multiset(qs)
    requires Records(t, ps, ask, sessions, r) && Records(t, qs, ask, sessions', r')
    requires digest(TimelessOf(r)) == digest(TimelessOf(r')) ==> TimelessOf(r) == TimelessOf(r')
    ensures Fingerprint(digest, r) == Fingerprint(digest, r') <==> r.rest == r'.rest
  {
    RecordingIgnoresOrder(t, ps, qs, ask, sessions, sessions', r.calls, r'.calls);
    FailuresIgnoreOrder(t, ps, qs, ask, r.failures, r'.failures);
  }

  /** A recorded call is some probe's, with that probe's origins and the platform's own reply; and a recorded failure
      is of a probe the platform did not answer. */
  lemma RecordedAreProbed<Rest, Provenance>(
      t: Tools, probes: seq<Probe>, ask: (string, Arguments) -> Answer, sessions: nat -> Session,
      r: Recording<Rest, Provenance>)
    requires Records(t, probes, ask, sessions, r)
    ensures forall call <- r.calls :: exists probe <- probes ::
      && probe.tool == call.tool && probe.arguments == call.arguments && probe.origins == call.origins
      && ask(probe.tool, probe.arguments) == Answered(call.reply)
    ensures forall probe <- probes :: forall detail ::
      ask(probe.tool, probe.arguments) == Unreached(detail) ==>
        RecordedFailure(probe.tool, probe.arguments, detail) in r.failures
  {
    forall call | call in r.calls
      ensures exists probe <- probes ::
        && probe.tool == call.tool && probe.arguments == call.arguments && probe.origins == call.origins
        && ask(probe.tool, probe.arguments) == Answered(call.reply)
    {
      assert call in multiset(r.calls);
      assert call in CallsMade(t, probes, ask, sessions);
      var i :| 0 <= i < |CallsMade(t, probes, ask, sessions)| && CallsMade(t, probes, ask, sessions)[i] == call;
      assert World(CallsMade(t, probes, ask, sessions))[i] == OfWorld(call);
      CallsMadeAre(t, probes, ask, sessions, OfWorld(call));
    }
    forall probe, detail | probe in probes && ask(probe.tool, probe.arguments) == Unreached(detail)
      ensures RecordedFailure(probe.tool, probe.arguments, detail) in r.failures
    {
      FailureIsMet(probes, ask, probe);
      assert RecordedFailure(probe.tool, probe.arguments, detail) in multiset(r.failures);
    }
  }

  lemma {:induction false} FailureIsMet(probes: seq<Probe>, ask: (string, Arguments) -> Answer, probe: Probe)
    requires probe in probes && ask(probe.tool, probe.arguments).Unreached?
    ensures RecordedFailure(probe.tool, probe.arguments, ask(probe.tool, probe.arguments).detail)
      in FailuresMet(probes, ask)
  {
    if probe != probes[|probes| - 1] {
      FailureIsMet(probes[..|probes| - 1], ask, probe);
    }
  }

  /** Two recordings have one fingerprint exactly when they are alike but for where they were taken and when their
      calls were made, for a digest that tells these two apart. */
  lemma FingerprintTellsApart<Rest(!new), Provenance>(
      digest: Timeless<Rest> -> string, r: Recording<Rest, Provenance>, r': Recording<Rest, Provenance>)
    requires digest(TimelessOf(r)) == digest(TimelessOf(r')) ==> TimelessOf(r) == TimelessOf(r')
    ensures Fingerprint(digest, r) == Fingerprint(digest, r') <==>
      r.rest == r'.rest && r.failures == r'.failures && SameButSessions(r.calls, r'.calls)
  {
    var a, b := World(r.calls), World(r'.calls);
    if a == b {
      forall i | 0 <= i < |r.calls| ensures r.calls[i].(session := r'.calls[i].session) == r'.calls[i] {
        assert a[i] == b[i];
      }
    }
    if SameButSessions(r.calls, r'.calls) {
      forall i | 0 <= i < |a| ensures a[i] == b[i] {
        assert r.calls[i].(session := r'.calls[i].session) == r'.calls[i];
      }
      assert a == b;
    }
  }

  ghost predicate SameButSessions(calls: seq<RecordedCall>, calls': seq<RecordedCall>) {
    |calls| == |calls'| && forall i :: 0 <= i < |calls| ==> calls[i].(session := calls'[i].session) == calls'[i]
  }

  // ----- The hypotheses can be met, by any list of calls -----

  function Ones(n: nat): (s: string)
    ensures |s| == n && forall i :: 0 <= i < n ==> s[i] == '1'
  {
    if n == 0 then "" else Ones(n - 1) + "1"
  }

  /** Where these arguments first stand in the list, or its length. */
  function PlaceOf(probes: seq<Probe>, arguments: Arguments): (n: nat)
    ensures n <= |probes|
    ensures n < |probes| ==> probes[n].arguments == arguments
    ensures n == |probes| ==> forall probe <- probes :: probe.arguments != arguments
  {
    if probes == [] then 0
    else if probes[0].arguments == arguments then 0
    else 1 + PlaceOf(probes[1..], arguments)
  }

  /** Tools that tell the calls of a given list apart: arguments are their own wire form, and a body says
      where in the list the arguments first stand. */
  function TellingApart(probes: seq<Probe>, registry: map<string, Tier>): Tools {
    Tools(registry, (_, arguments) => Some(arguments), arguments => Ones(PlaceOf(probes, arguments)), digest => digest)
  }

  lemma SpaceBeforeOnes(a: string, m: nat, b: string, n: nat)
    requires a + " " + Ones(m) == b + " " + Ones(n)
    ensures a == b && m == n
  {
    var key := a + " " + Ones(m);
    assert key[|a|] == ' ' && forall i :: |a| < i < |key| ==> key[i] == Ones(m)[i - |a| - 1];
    assert key[|b|] == ' ' && forall i :: |b| < i < |key| ==> key[i] == Ones(n)[i - |b| - 1];
    assert |a| == |b|;
    assert key[..|a|] == a && key[..|b|] == b;
  }

  /** No list of calls is too rich: some tools wire, key and spell every one of its calls apart. */
  lemma EveryListCanBeToldApart(probes: seq<Probe>, registry: map<string, Tier>)
    ensures var t := TellingApart(probes, registry);
      t.registry == registry && WiresOnce(t, probes) && KeysSeparate(t, probes) && BodiesSeparate(t, probes)
  {
    var t := TellingApart(probes, registry);
    forall a, b | a in probes && b in probes && t.body(a.arguments) == t.body(b.arguments)
      ensures a.arguments == b.arguments {
      assert |Ones(PlaceOf(probes, a.arguments))| == PlaceOf(probes, a.arguments);
      assert |Ones(PlaceOf(probes, b.arguments))| == PlaceOf(probes, b.arguments);
    }
    forall a, b | a in probes && b in probes && t.CallKey(a.tool, a.arguments) == t.CallKey(b.tool, b.arguments)
      ensures SameCall(a, b) {
      SpaceBeforeOnes(a.tool, PlaceOf(probes, a.arguments), b.tool, PlaceOf(probes, b.arguments));
    }
  }
}
