/** The probe loop of evals/fixture_probe.py: each canned call read once from the live platform
    under one retry budget, and what the run may claim to have covered. */
module LiveProbe {
  import opened Json
  import opened WorldComparison
  import opened WorldWalk
  import opened Sorting
  import opened DriftLedger

  const RATE_LIMIT_BUDGET_SECONDS: int := 60
  const RATE_LIMIT_BACKOFF_SECONDS: seq<int> := [2, 4, 8, 16]

  type CallArguments = map<string, Value>

  datatype Reply = Reading(payload: map<string, Value>) | RateLimited | Failed(detail: string)

  /** What one request asks the platform. */
  type Request = (string, CallArguments)

  function Repeated(n: nat, request: Request): seq<Request> {
    seq(n, _ => request)
  }

  lemma OneMoreRepeat(n: nat, request: Request)
    ensures Repeated(n + 1, request) == Repeated(n, request) + [request]
  {
  }

  /** The seconds slept before the `n`-th attempt of one call. */
  function WaitBefore(n: nat): int
    requires n <= |RATE_LIMIT_BACKOFF_SECONDS|
  {
    if n == 0 then 0 else WaitBefore(n - 1) + RATE_LIMIT_BACKOFF_SECONDS[n - 1]
  }

  class Backoff {
    /** What the platform answers to the n-th request of the run, whatever it is. */
    const platform: (nat, string, CallArguments) -> Reply
    var remaining: int
    var asked: nat
    ghost var slept: int
    ghost var calls: nat
    /** Every request of the run, in order. */
    ghost var log: seq<Request>

    ghost predicate Valid()
      reads this
    {
      remaining >= 0 && slept + remaining == RATE_LIMIT_BUDGET_SECONDS && asked == |log|
    }

    constructor (platform: (nat, string, CallArguments) -> Reply)
      ensures Valid() && this.platform == platform && log == [] && calls == 0
    {
      this.platform := platform;
      remaining, asked, slept, calls, log := RATE_LIMIT_BUDGET_SECONDS, 0, 0, 0, [];
    }

    method Ask(tool: string, arguments: CallArguments) returns (reply: Reply)
      modifies this`asked, this`log
      ensures reply == platform(old(asked), tool, arguments) && asked == old(asked) + 1
      ensures log == old(log) + [(tool, arguments)]
    {
      reply := platform(asked, tool, arguments);
      asked := asked + 1;
      log := log + [(tool, arguments)];
    }

    /** At most five requests for one call, all but the last of them rate-limited; the last answer is the
        result, and it is rate-limited itself only after all five or when the next wait is not affordable. */
    method Call(tool: string, arguments: CallArguments) returns (reply: Reply)
      requires Valid()
      modifies this
      ensures Valid() && calls == old(calls) + 1
      ensures 1 <= asked - old(asked) <= |RATE_LIMIT_BACKOFF_SECONDS| + 1
      ensures log == old(log) + Repeated(asked - old(asked), (tool, arguments))
      ensures reply == platform(asked - 1, tool, arguments)
      ensures forall n: nat :: old(asked) <= n < asked - 1 ==> platform(n, tool, arguments).RateLimited?
      ensures slept == old(slept) + WaitBefore(asked - old(asked) - 1)
      ensures reply.RateLimited? ==>
        asked - old(asked) == |RATE_LIMIT_BACKOFF_SECONDS| + 1
          || RATE_LIMIT_BACKOFF_SECONDS[asked - old(asked) - 1] > remaining
    {
      calls := calls + 1;
      for i := 0 to |RATE_LIMIT_BACKOFF_SECONDS|
        invariant Valid() && asked == old(asked) + i && calls == old(calls) + 1
        invariant forall n: nat :: old(asked) <= n < asked ==> platform(n, tool, arguments).RateLimited?
        invariant slept == old(slept) + WaitBefore(i)
        invariant log == old(log) + Repeated(i, (tool, arguments))
      {
        OneMoreRepeat(i, (tool, arguments));
        var delay := RATE_LIMIT_BACKOFF_SECONDS[i];
        reply := Ask(tool, arguments);
        if !reply.RateLimited? || delay > remaining {
          return;
        }
        remaining := remaining - delay;
        slept := slept + delay;
      }
      OneMoreRepeat(|RATE_LIMIT_BACKOFF_SECONDS|, (tool, arguments));
      reply := Ask(tool, arguments);
    }
  }

  // ----- The run -----

  datatype CannedCall = CannedCall(
    scenario: string, tool: string, arguments: CallArguments, payload: map<string, Value>,
    index: nat, chaosSeeded: bool, policy: Policy)
  {
    function Pair(): (string, string) {
      (scenario, tool)
    }

    function Asks(): Request {
      (tool, arguments)
    }

    /** Two elements of one sequence are read separately, even when they make the same request. */
    function Key(): (string, CallArguments, nat) {
      (tool, arguments, index)
    }
  }

  /** Every request of the list asks what one of these calls asks. */
  ghost predicate OnlyAsks(requests: seq<Request>, calls: seq<CannedCall>) {
    forall request <- requests :: exists call <- calls :: call.Asks() == request
  }

  type Cache = map<(string, CallArguments, nat), Reply>

  /** How one probed call ended. */
  datatype End = Compared | Errored | Limited

  /** Only where no chaos is seeded does a failed read leave the call uncompared. */
  function EndOf(call: CannedCall, reply: Reply): End {
    match reply
    case RateLimited => Limited
    case Failed(_) => if call.chaosSeeded then Compared else Errored
    case Reading(_) => Compared
  }

  datatype Found = Found(call: CannedCall, drift: Drift)

  ghost function FoundIn(call: CannedCall, reply: Reply): seq<Found> {
    if EndOf(call, reply) == Compared then
      Tagged(call, Against(call, if reply.Reading? then reply.payload else map[]))
    else []
  }

  /** The drift of one call's fixture against a live payload. */
  ghost function Against(call: CannedCall, live: map<string, Value>): seq<Drift> {
    Walked(call.policy, Obj(call.payload), Obj(live), [], false)
  }

  function Tagged(call: CannedCall, drifts: seq<Drift>): seq<Found> {
    seq(|drifts|, i requires 0 <= i < |drifts| => Found(call, drifts[i]))
  }

  predicate InCache(cache: Cache, probed: seq<CannedCall>) {
    forall call <- probed :: call.Key() in cache
  }

  ghost function AllFound(cache: Cache, probed: seq<CannedCall>): seq<Found>
    requires InCache(cache, probed)
  {
    if probed == [] then []
    else
      var last := probed[|probed| - 1];
      AllFound(cache, probed[..|probed| - 1]) + FoundIn(last, cache[last.Key()])
  }

  /** The pairs with some call that ended so. */
  function PairsEnding(cache: Cache, probed: seq<CannedCall>, end: End): set<(string, string)>
    requires InCache(cache, probed)
  {
    set call <- probed | EndOf(call, cache[call.Key()]) == end :: call.Pair()
  }

  function ErrorsOf(cache: Cache, probed: seq<CannedCall>): seq<(string, string)>
    requires InCache(cache, probed)
  {
    if probed == [] then []
    else
      var last := probed[|probed| - 1];
      ErrorsOf(cache, probed[..|probed| - 1]) + if EndOf(last, cache[last.Key()]) == Errored then [last.Pair()] else []
  }

  /** A lag reading that says the lag is known and when it was taken. */
  predicate Measured(payload: map<string, Value>) {
    "lag_known" in payload && payload["lag_known"] == Bool(true) && "measured_at" in payload
      && Truthy(payload["measured_at"])
  }

  predicate Truthy(v: Value) {
    match v
    case Null => false
    case Bool(on) => on
    case Num(n) => n != 0.0
    case Str(text) => text != ""
    case Arr(items) => items != []
    case Obj(fields) => fields != map[]
  }

  predicate IsLagReading(call: CannedCall) {
    call.tool == "get_consumer_lag" && "consumer_group" in call.arguments
    && call.arguments["consumer_group"] == Str("worker-dispatcher")
  }

  function StackSeen(cache: Cache, probed: seq<CannedCall>): Stack
    requires InCache(cache, probed)
  {
    if probed == [] then Unknown
    else
      var last := probed[|probed| - 1];
      var reply := cache[last.Key()];
      if IsLagReading(last) && reply.Reading? then (if Measured(reply.payload) then Warm else Cold)
      else StackSeen(cache, probed[..|probed| - 1])
  }

  /** In the order of their places in a scenario's sequence. */
  ghost predicate ByIndex(calls: seq<CannedCall>) {
    forall i, j :: 0 <= i < j < |calls| ==> calls[i].index <= calls[j].index
  }

  lemma SortedByIndex(calls: seq<CannedCall>)
    requires SortedBy(IndexLeq, calls)
    ensures ByIndex(calls)
  {
    forall i, j | 0 <= i < j < |calls| ensures calls[i].index <= calls[j].index {
      assert IndexLeq(calls[i], calls[j]);
    }
  }

  predicate IndexLeq(a: CannedCall, b: CannedCall) {
    a.index <= b.index
  }

  datatype ProbeResult = ProbeResult(
    drifts: seq<Found>, errors: seq<(string, string)>, compared: set<(string, string)>,
    rateLimited: set<(string, string)>,
    stack: Stack, checked: nat, liveCalls: nat)

  /** The result is what the cache says of each probed call, and a pair with one element refused is
      not among the compared. */
  ghost predicate Reports(result: ProbeResult, cache: Cache, probed: seq<CannedCall>) {
    && InCache(cache, probed)
    && result.drifts == AllFound(cache, probed)
    && result.rateLimited == PairsEnding(cache, probed, Limited)
    && result.compared == PairsEnding(cache, probed, Compared) - result.rateLimited
    && result.stack == StackSeen(cache, probed)
    && result.checked == |probed| && result.liveCalls == |cache|
  }

  /** What the loop keeps count of. */
  datatype Books = Books(
    drifts: seq<Found>, errors: seq<(string, string)>, compared: set<(string, string)>, limited: set<(string, string)>,
    stack: Stack)

  ghost predicate Balanced(books: Books, cache: Cache, done: seq<CannedCall>) {
    && InCache(cache, done)
    && books.drifts == AllFound(cache, done)
    && books.errors == ErrorsOf(cache, done)
    && books.limited == PairsEnding(cache, done, Limited)
    && books.compared == PairsEnding(cache, done, Compared)
    && books.stack == StackSeen(cache, done)
  }

  /** Every cached reply is the platform's answer to a request of this run for that call. */
  ghost predicate Answered(platform: (nat, string, CallArguments) -> Reply, log: seq<Request>, cache: Cache) {
    forall k <- cache :: exists n: nat :: n < |log| && log[n] == (k.0, k.1) && cache[k] == platform(n, k.0, k.1)
  }

  ghost predicate KeyedBy(cache: Cache, done: seq<CannedCall>) {
    cache.Keys == set call <- done :: (call.tool, call.arguments, call.index)
  }

  method Probe(calls: seq<CannedCall>, backoff: Backoff)
    returns (result: ProbeResult, cache: Cache, probed: seq<CannedCall>)
    requires backoff.Valid()
    modifies backoff
    ensures backoff.Valid()
    ensures ByIndex(probed) && multiset(probed) == multiset(calls)
    ensures Reports(result, cache, probed) && KeyedBy(cache, probed) && result.errors == ErrorsOf(cache, probed)
    ensures backoff.calls == old(backoff.calls) + |cache|
    ensures Answered(backoff.platform, backoff.log, cache)
    ensures old(backoff.log) <= backoff.log && OnlyAsks(backoff.log[|old(backoff.log)|..], probed)
  {
    probed := Sort(IndexLeq, calls);
    SortedByIndex(probed);
    var books;
    books, cache := ReadEach(probed, backoff);
    result := ProbeResult(
      books.drifts, books.errors, books.compared - books.limited, books.limited, books.stack, |probed|, |cache|);
  }

  method ReadEach(probed: seq<CannedCall>, backoff: Backoff) returns (books: Books, cache: Cache)
    requires backoff.Valid()
    modifies backoff
    ensures backoff.Valid() && backoff.calls == old(backoff.calls) + |cache|
    ensures Answered(backoff.platform, backoff.log, cache)
    ensures KeyedBy(cache, probed) && Balanced(books, cache, probed)
    ensures old(backoff.log) <= backoff.log && OnlyAsks(backoff.log[|old(backoff.log)|..], probed)
  {
    ghost var before := backoff.log;
    cache, books := map[], Books([], [], {}, {}, Unknown);
    NothingYet(books, cache, probed[..0]);
    for i := 0 to |probed|
      invariant backoff.Valid() && backoff.calls == old(backoff.calls) + |cache|
      invariant Answered(backoff.platform, backoff.log, cache)
      invariant KeyedBy(cache, probed[..i])
      invariant Balanced(books, cache, probed[..i])
      invariant before <= backoff.log && OnlyAsks(backoff.log[|before|..], probed[..i])
    {
      OneMore(probed, i);
      ghost var met := backoff.log;
      books, cache := Turn(backoff, probed[i], probed[..i], books, cache);
      AsksOneMore(before, met, backoff.log, probed[..i], probed[i]);
    }
    assert probed[..|probed|] == probed;
  }

  lemma OneMore<T>(s: seq<T>, i: nat)
    requires i < |s|
    ensures s[..i + 1] == s[..i] + [s[i]]
  {
  }

  lemma NothingYet(books: Books, cache: Cache, done: seq<CannedCall>)
    requires done == [] && cache == map[] && books == Books([], [], {}, {}, Unknown)
    ensures KeyedBy(cache, done) && Balanced(books, cache, done)
  {
  }

  method Turn(backoff: Backoff, call: CannedCall, ghost done: seq<CannedCall>, books: Books, cache: Cache)
    returns (after: Books, known: Cache)
    requires backoff.Valid() && Answered(backoff.platform, backoff.log, cache)
    requires KeyedBy(cache, done) && Balanced(books, cache, done)
    modifies backoff
    ensures backoff.Valid() && backoff.calls - |known| == old(backoff.calls) - |cache|
    ensures Answered(backoff.platform, backoff.log, known)
    ensures KeyedBy(known, done + [call]) && Balanced(after, known, done + [call])
    ensures AsksMore(old(backoff.log), backoff.log, call.Asks())
  {
    known := Consult(backoff, cache, call);
    KeyedByOneMore(cache, known, done, call);
    StillBalanced(books, cache, known, done);
    after := Account(known[call.Key()], call, books);
    AccountedBalances(books, known, done, call);
  }

  /** The cache lookup of one turn: through the back-off only the first time a key is met. */
  method Consult(backoff: Backoff, cache: Cache, call: CannedCall) returns (after: Cache)
    requires backoff.Valid() && Answered(backoff.platform, backoff.log, cache)
    modifies backoff
    ensures backoff.Valid() && backoff.calls - |after| == old(backoff.calls) - |cache|
    ensures Answered(backoff.platform, backoff.log, after)
    ensures after.Keys == cache.Keys + {call.Key()} && forall k <- cache :: after[k] == cache[k]
    ensures AsksMore(old(backoff.log), backoff.log, call.Asks())
  {
    after := cache;
    if call.Key() !in cache {
      ghost var before := backoff.log;
      var reply := backoff.Call(call.tool, call.arguments);
      after := cache[call.Key() := reply];
      AskedSome(before, backoff.log, call.Asks(), |backoff.log| - |before|);
      AnsweredOneMore(backoff.platform, before, backoff.log, cache, call.Key(), reply);
      NewEntry(cache, call.Key(), reply);
    } else {
      AskedSome(backoff.log, backoff.log, call.Asks(), 0);
      OldEntry(cache, call.Key());
    }
  }

  lemma OldEntry<K, V>(entries: map<K, V>, key: K)
    requires key in entries
    ensures entries.Keys == entries.Keys + {key}
  {
  }

  lemma NewEntry<K, V>(entries: map<K, V>, key: K, value: V)
    requires key !in entries
    ensures var after := entries[key := value];
      after.Keys == entries.Keys + {key} && |after| == |entries| + 1 && forall k <- entries :: after[k] == entries[k]
  {
    assert entries[key := value].Keys == entries.Keys + {key};
    assert |entries[key := value]| == |entries[key := value].Keys| && |entries| == |entries.Keys|;
  }

  ghost predicate AsksMore(before: seq<Request>, log: seq<Request>, request: Request) {
    exists n: nat :: log == before + Repeated(n, request)
  }

  lemma AskedSome(before: seq<Request>, log: seq<Request>, request: Request, n: nat)
    requires log == before + Repeated(n, request)
    ensures AsksMore(before, log, request) && before <= log
    ensures n > 0 ==> before < log && log[|log| - 1] == request
  {
  }

  lemma AsksOneMore(
      before: seq<Request>, met: seq<Request>, log: seq<Request>, calls: seq<CannedCall>, call: CannedCall)
    requires before <= met && OnlyAsks(met[|before|..], calls)
    requires AsksMore(met, log, call.Asks())
    ensures before <= log && OnlyAsks(log[|before|..], calls + [call])
  {
    var n: nat :| log == met + Repeated(n, call.Asks());
    assert log[|before|..] == met[|before|..] + Repeated(n, call.Asks());
    forall request | request in log[|before|..] ensures exists c <- calls + [call] :: c.Asks() == request {
      if request in met[|before|..] {
        var c :| c in calls && c.Asks() == request;
        assert c in calls + [call];
      } else {
        assert request == call.Asks() && call in calls + [call];
      }
    }
  }

  lemma AnsweredOneMore(
      platform: (nat, string, CallArguments) -> Reply, before: seq<Request>, log: seq<Request>, cache: Cache,
      key: (string, CallArguments, nat), reply: Reply)
    requires Answered(platform, before, cache) && before < log
    requires log[|log| - 1] == (key.0, key.1) && reply == platform(|log| - 1, key.0, key.1)
    ensures Answered(platform, log, cache[key := reply])
  {
    var after := cache[key := reply];
    forall k | k in after
      ensures exists n: nat :: n < |log| && log[n] == (k.0, k.1) && after[k] == platform(n, k.0, k.1) {
      if k == key {
        assert log[|log| - 1] == (k.0, k.1) && after[k] == platform(|log| - 1, k.0, k.1);
      } else {
        var n: nat :| n < |before| && before[n] == (k.0, k.1) && cache[k] == platform(n, k.0, k.1);
        assert log[n] == (k.0, k.1) && after[k] == platform(n, k.0, k.1);
      }
    }
  }

  lemma KeyedByOneMore(cache: Cache, after: Cache, done: seq<CannedCall>, call: CannedCall)
    requires KeyedBy(cache, done) && after.Keys == cache.Keys + {call.Key()}
    ensures KeyedBy(after, done + [call])
  {
    assert (set c <- done + [call] :: (c.tool, c.arguments, c.index))
      == (set c <- done :: (c.tool, c.arguments, c.index)) + {call.Key()};
  }

  lemma StillBalanced(books: Books, cache: Cache, after: Cache, done: seq<CannedCall>)
    requires Balanced(books, cache, done) && forall k <- cache :: k in after && after[k] == cache[k]
    ensures Balanced(books, after, done)
  {
    StillSoFar(cache, after, done);
  }

  lemma {:induction false} StillSoFar(cache: Cache, after: Cache, done: seq<CannedCall>)
    requires InCache(cache, done) && forall k <- cache :: k in after && after[k] == cache[k]
    ensures InCache(after, done)
    ensures AllFound(after, done) == AllFound(cache, done) && ErrorsOf(after, done) == ErrorsOf(cache, done)
    ensures forall end :: PairsEnding(after, done, end) == PairsEnding(cache, done, end)
    ensures StackSeen(after, done) == StackSeen(cache, done)
  {
    if done != [] {
      StillSoFar(cache, after, done[..|done| - 1]);
    }
  }

  /** What one turn adds to the run's books. */
  ghost function Accounted(books: Books, call: CannedCall, reply: Reply): Books {
    var end := EndOf(call, reply);
    Books(
      if end == Compared then books.drifts + FoundIn(call, reply) else books.drifts,
      if end == Errored then books.errors + [call.Pair()] else books.errors,
      if end == Compared then books.compared + {call.Pair()} else books.compared,
      if end == Limited then books.limited + {call.Pair()} else books.limited,
      if IsLagReading(call) && reply.Reading? then (if Measured(reply.payload) then Warm else Cold) else books.stack)
  }

  method Account(reply: Reply, call: CannedCall, books: Books) returns (after: Books)
    ensures after == Accounted(books, call, reply)
  {
    after := books;
    match reply
    case RateLimited =>
      after := books.(limited := books.limited + {call.Pair()});
    case Failed(_) =>
      if call.chaosSeeded {
        var found := CompareWith(call, map[]);
        after := books.(drifts := books.drifts + found, compared := books.compared + {call.Pair()});
      } else {
        after := books.(errors := books.errors + [call.Pair()]);
      }
    case Reading(payload) =>
      var found := CompareWith(call, payload);
      var stack := if IsLagReading(call) then (if Measured(payload) then Warm else Cold) else books.stack;
      after := books.(drifts := books.drifts + found, compared := books.compared + {call.Pair()}, stack := stack);
  }

  method CompareWith(call: CannedCall, live: map<string, Value>) returns (found: seq<Found>)
    ensures found == Tagged(call, Against(call, live))
  {
    var drifts := Compare(call.policy, call.payload, live);
    found := Tagged(call, drifts);
  }

  lemma AccountedBalances(books: Books, cache: Cache, done: seq<CannedCall>, call: CannedCall)
    requires call.Key() in cache && Balanced(books, cache, done)
    ensures Balanced(Accounted(books, call, cache[call.Key()]), cache, done + [call])
  {
    OneMoreIn(cache, done, call);
    OneMoreFound(cache, done, call);
    OneMoreError(cache, done, call);
    OneMoreEnding(cache, done, call, Limited);
    OneMoreEnding(cache, done, call, Compared);
    OneMoreStack(cache, done, call);
  }

  lemma OneMoreIn(cache: Cache, done: seq<CannedCall>, call: CannedCall)
    requires InCache(cache, done) && call.Key() in cache
    ensures InCache(cache, done + [call])
  {
  }

  lemma OneMoreFound(cache: Cache, done: seq<CannedCall>, call: CannedCall)
    requires InCache(cache, done) && InCache(cache, done + [call])
    ensures call.Key() in cache
    ensures AllFound(cache, done + [call]) ==
      if EndOf(call, cache[call.Key()]) == Compared then AllFound(cache, done) + FoundIn(call, cache[call.Key()])
      else AllFound(cache, done)
  {
    assert call in done + [call] && (done + [call])[..|done|] == done;
  }

  lemma OneMoreError(cache: Cache, done: seq<CannedCall>, call: CannedCall)
    requires InCache(cache, done) && InCache(cache, done + [call])
    ensures call.Key() in cache
    ensures ErrorsOf(cache, done + [call]) ==
      if EndOf(call, cache[call.Key()]) == Errored then ErrorsOf(cache, done) + [call.Pair()] else ErrorsOf(cache, done)
  {
    assert call in done + [call] && (done + [call])[..|done|] == done;
  }

  lemma OneMoreEnding(cache: Cache, done: seq<CannedCall>, call: CannedCall, end: End)
    requires InCache(cache, done) && InCache(cache, done + [call])
    ensures call.Key() in cache
    ensures PairsEnding(cache, done + [call], end) ==
      if EndOf(call, cache[call.Key()]) == end then PairsEnding(cache, done, end) + {call.Pair()}
        else PairsEnding(cache, done, end)
  {
    assert call in done + [call];
    assert forall c :: c in done + [call] <==> c in done || c == call;
  }

  lemma OneMoreStack(cache: Cache, done: seq<CannedCall>, call: CannedCall)
    requires InCache(cache, done) && InCache(cache, done + [call])
    ensures call.Key() in cache
    ensures StackSeen(cache, done + [call]) ==
      if IsLagReading(call) && cache[call.Key()].Reading? then
        (if Measured(cache[call.Key()].payload) then Warm else Cold)
      else StackSeen(cache, done)
  {
    assert call in done + [call] && (done + [call])[..|done|] == done;
  }

  // ----- The seed witnesses, the filter, and the whole of `probe_live` -----

  datatype SeedCheck = Seeded | WitnessFailed | Unseeded

  function Collection(reply: Reply, name: string): Value {
    if reply.Reading? && name in reply.payload then reply.payload[name] else Null
  }

  const SEED_WITNESSES := [("list_dlq_messages", "items"), ("list_active_alerts", "alerts")]

  type Witness = (string, string)

  /** The `n`-th request of the run asked this witness tool. */
  predicate AskedWitness(log: seq<Request>, n: nat, w: Witness) {
    w in SEED_WITNESSES && n < |log| && log[n] == (w.0, map[])
  }

  /** ... and was answered with a payload. */
  predicate ReadWitness(platform: (nat, string, CallArguments) -> Reply, log: seq<Request>, n: nat, w: Witness) {
    AskedWitness(log, n, w) && platform(n, w.0, map[]).Reading?
  }

  /** A value Python takes for true: not null, false, zero, or an empty text, list or object. */
  predicate NotEmpty(v: Value) {
    v !in {Null, Bool(false), Num(0.0), Str(""), Arr([]), Obj(map[])}
  }

  /** ... and that payload holds, under the witness's own name, something that is not empty. */
  predicate HasRows(platform: (nat, string, CallArguments) -> Reply, log: seq<Request>, n: nat, w: Witness) {
    ReadWitness(platform, log, n, w)
    && w.1 in platform(n, w.0, map[]).payload && NotEmpty(platform(n, w.0, map[]).payload[w.1])
  }

  lemma HasRowsIs(platform: (nat, string, CallArguments) -> Reply, log: seq<Request>, n: nat, w: Witness)
    requires AskedWitness(log, n, w)
    ensures HasRows(platform, log, n, w) <==> Truthy(Collection(platform(n, w.0, map[]), w.1))
  {
  }

  predicate IsWitnessRequest(request: Request) {
    exists w <- SEED_WITNESSES :: request == (w.0, map[])
  }

  predicate OnlyWitnesses(requests: seq<Request>) {
    forall request <- requests :: IsWitnessRequest(request)
  }

  /** A row was listed by some request from `from` on. */
  ghost predicate RowsSeen(platform: (nat, string, CallArguments) -> Reply, log: seq<Request>, from: nat) {
    exists n: nat, w :: from <= n && HasRows(platform, log, n, w)
  }

  ghost predicate WitnessRead(
      platform: (nat, string, CallArguments) -> Reply, log: seq<Request>, from: nat, w: Witness) {
    exists n: nat :: from <= n && ReadWitness(platform, log, n, w)
  }

  /** The first `count` witnesses were read, from the request `from` on. */
  ghost predicate AllRead(platform: (nat, string, CallArguments) -> Reply, log: seq<Request>, from: nat, count: nat) {
    forall j :: 0 <= j < count && j < |SEED_WITNESSES| ==> WitnessRead(platform, log, from, SEED_WITNESSES[j])
  }

  /** The last request of the run read a witness. */
  ghost predicate LastRead(platform: (nat, string, CallArguments) -> Reply, log: seq<Request>) {
    log != [] && exists w <- SEED_WITNESSES :: ReadWitness(platform, log, |log| - 1, w)
  }

  lemma OneMoreWitness(before: seq<Request>, log: seq<Request>, from: nat, count: nat, w: Witness)
    requires from <= |before| && OnlyWitnesses(before[from..])
    requires w in SEED_WITNESSES && count > 0 && log == before + Repeated(count, (w.0, map[]))
    ensures OnlyWitnesses(log[from..]) && AskedWitness(log, |log| - 1, w)
  {
    assert log[from..] == before[from..] + Repeated(count, (w.0, map[]));
  }

  lemma RowsOfTheLast(
      platform: (nat, string, CallArguments) -> Reply, before: seq<Request>, log: seq<Request>, from: nat, count: nat,
      w: Witness)
    requires from <= |before| && !RowsSeen(platform, before, from)
    requires w in SEED_WITNESSES && count > 0 && log == before + Repeated(count, (w.0, map[]))
    requires forall n: nat :: |before| <= n < |log| - 1 ==> platform(n, w.0, map[]).RateLimited?
    ensures RowsSeen(platform, log, from) <==> HasRows(platform, log, |log| - 1, w)
  {
    forall n: nat, v | from <= n && HasRows(platform, log, n, v) ensures n == |log| - 1 && v == w {
      if n < |before| {
        assert HasRows(platform, before, n, v);
      } else {
        WitnessByName(v, w);
      }
    }
  }

  lemma LastReadIs(platform: (nat, string, CallArguments) -> Reply, log: seq<Request>, w: Witness)
    requires log != [] && AskedWitness(log, |log| - 1, w)
    ensures LastRead(platform, log) <==> ReadWitness(platform, log, |log| - 1, w)
  {
    if v :| v in SEED_WITNESSES && ReadWitness(platform, log, |log| - 1, v) {
      WitnessByName(v, w);
    }
  }

  lemma WitnessByName(v: Witness, w: Witness)
    requires v in SEED_WITNESSES && w in SEED_WITNESSES && v.0 == w.0
    ensures v == w
  {
  }

  lemma OneMoreRead(
      platform: (nat, string, CallArguments) -> Reply, before: seq<Request>, log: seq<Request>, from: nat, i: nat)
    requires from <= |before| && before < log && i < |SEED_WITNESSES|
    requires AllRead(platform, before, from, i) && ReadWitness(platform, log, |log| - 1, SEED_WITNESSES[i])
    ensures AllRead(platform, log, from, i + 1)
  {
    forall j | 0 <= j < i ensures WitnessRead(platform, log, from, SEED_WITNESSES[j]) {
      assert WitnessRead(platform, before, from, SEED_WITNESSES[j]);
      var n: nat :| from <= n && ReadWitness(platform, before, n, SEED_WITNESSES[j]);
      assert ReadWitness(platform, log, n, SEED_WITNESSES[j]);
    }
  }

  /** One witness asked: was it answered with a payload, and does that list a row? */
  method AskWitness(backoff: Backoff, i: nat, ghost from: nat) returns (read: bool, rows: bool)
    requires backoff.Valid() && i < |SEED_WITNESSES| && from <= |backoff.log|
    requires OnlyWitnesses(backoff.log[from..]) && !RowsSeen(backoff.platform, backoff.log, from)
    requires AllRead(backoff.platform, backoff.log, from, i)
    modifies backoff
    ensures backoff.Valid() && backoff.calls == old(backoff.calls) + 1
    ensures old(backoff.log) < backoff.log && OnlyWitnesses(backoff.log[from..])
    ensures read <==> LastRead(backoff.platform, backoff.log)
    ensures rows <==> RowsSeen(backoff.platform, backoff.log, from)
    ensures rows ==> read
    ensures read ==> AllRead(backoff.platform, backoff.log, from, i + 1)
  {
    var w := SEED_WITNESSES[i];
    ghost var before := backoff.log;
    var reply := backoff.Call(w.0, map[]);
    ghost var count: nat := |backoff.log| - |before|;
    OneMoreWitness(before, backoff.log, from, count, w);
    RowsOfTheLast(backoff.platform, before, backoff.log, from, count, w);
    LastReadIs(backoff.platform, backoff.log, w);
    HasRowsIs(backoff.platform, backoff.log, |backoff.log| - 1, w);
    read, rows := reply.Reading?, Truthy(Collection(reply, w.1));
    if read {
      OneMoreRead(backoff.platform, before, backoff.log, from, i);
    }
  }

  /** `assert_seeded`: seeded exactly when one of its own requests listed a row, refused exactly when
      the last of them was not answered with a payload, and unseeded after reading every witness. */
  method AssertSeeded(backoff: Backoff) returns (check: SeedCheck)
    requires backoff.Valid()
    modifies backoff
    ensures backoff.Valid() && old(backoff.calls) < backoff.calls <= old(backoff.calls) + 2
    ensures old(backoff.log) < backoff.log && OnlyWitnesses(backoff.log[|old(backoff.log)|..])
    ensures check.Seeded? <==> RowsSeen(backoff.platform, backoff.log, |old(backoff.log)|)
    ensures check.WitnessFailed? <==> !LastRead(backoff.platform, backoff.log)
    ensures check.Unseeded? ==> AllRead(backoff.platform, backoff.log, |old(backoff.log)|, |SEED_WITNESSES|)
  {
    ghost var from := |backoff.log|;
    for i := 0 to |SEED_WITNESSES|
      invariant backoff.Valid() && backoff.calls == old(backoff.calls) + i
      invariant old(backoff.log) <= backoff.log && (i > 0 ==> old(backoff.log) < backoff.log)
      invariant OnlyWitnesses(backoff.log[from..]) && !RowsSeen(backoff.platform, backoff.log, from)
      invariant i > 0 ==> LastRead(backoff.platform, backoff.log)
      invariant AllRead(backoff.platform, backoff.log, from, i)
    {
      var read, rows := AskWitness(backoff, i, from);
      if !read {
        return WitnessFailed;
      }
      if rows {
        return Seeded;
      }
    }
    return Unseeded;
  }

  /** What a run leaves behind besides its result: its requests, the first `witnessed` of them made
      before anything was probed, and how many calls went through the back-off after those. */
  datatype LiveRun = LiveRun(
    cache: Cache, probed: seq<CannedCall>, slept: int, remaining: int, requests: seq<Request>, witnessed: nat,
    series: nat)
  {
    predicate Valid() {
      witnessed <= |requests| && remaining >= 0 && slept + remaining == RATE_LIMIT_BUDGET_SECONDS
    }
  }

  datatype Registered = ReadTool | WriteTool

  function Keep(calls: seq<CannedCall>, registry: map<string, Registered>, tier: Registered): seq<CannedCall> {
    if calls == [] then []
    else
      (if calls[0].tool in registry && registry[calls[0].tool] == tier then [calls[0]] else [])
        + Keep(calls[1..], registry, tier)
  }

  function Unregistered(calls: seq<CannedCall>, registry: map<string, Registered>): seq<CannedCall> {
    if calls == [] then []
    else (if calls[0].tool in registry then [] else [calls[0]]) + Unregistered(calls[1..], registry)
  }

  lemma {:induction false} KeptAre(
      calls: seq<CannedCall>, registry: map<string, Registered>, tier: Registered, call: CannedCall)
    ensures call in Keep(calls, registry, tier) ==> call.tool in registry && registry[call.tool] == tier
    ensures call in Unregistered(calls, registry) ==> call.tool !in registry
  {
    if calls != [] {
      KeptAre(calls[1..], registry, tier, call);
    }
  }

  /** Three lists that hold together what one list holds, as often. */
  ghost predicate Parts<T>(whole: seq<T>, a: seq<T>, b: seq<T>, c: seq<T>) {
    multiset(whole) == multiset(a) + multiset(b) + multiset(c)
  }

  lemma OneMoreOf<T>(whole: seq<T>, a: seq<T>, b: seq<T>, c: seq<T>)
    requires whole != [] && Parts(whole[1..], a, b, c)
    ensures Parts(whole, [whole[0]] + a, b, c) && Parts(whole, a, [whole[0]] + b, c)
      && Parts(whole, a, b, [whole[0]] + c)
  {
    assert whole == [whole[0]] + whole[1..];
  }

  lemma {:induction false} KeepOne(calls: seq<CannedCall>, registry: map<string, Registered>, tier: Registered)
    requires calls != []
    ensures Keep(calls, registry, tier) ==
      if calls[0].tool in registry && registry[calls[0].tool] == tier then [calls[0]] + Keep(calls[1..], registry, tier)
      else Keep(calls[1..], registry, tier)
    ensures Unregistered(calls, registry) ==
      if calls[0].tool in registry then Unregistered(calls[1..], registry)
        else [calls[0]] + Unregistered(calls[1..], registry)
  {
  }

  lemma {:induction false} PartsAdd(calls: seq<CannedCall>, registry: map<string, Registered>)
    ensures Parts(calls, Keep(calls, registry, ReadTool), Keep(calls, registry, WriteTool),
      Unregistered(calls, registry))
  {
    if calls != [] {
      var rest := calls[1..];
      PartsAdd(rest, registry);
      KeepOne(calls, registry, ReadTool);
      KeepOne(calls, registry, WriteTool);
      OneMoreOf(calls, Keep(rest, registry, ReadTool), Keep(rest, registry, WriteTool), Unregistered(rest, registry));
    }
  }

  /** The three filters part the calls: each call is in exactly one of them, as often as it was given. */
  lemma EveryCallOnce(calls: seq<CannedCall>, registry: map<string, Registered>)
    ensures Parts(calls, Keep(calls, registry, ReadTool), Keep(calls, registry, WriteTool),
      Unregistered(calls, registry))
    ensures forall tier, call ::
      call in Keep(calls, registry, tier) ==> call.tool in registry && registry[call.tool] == tier
    ensures forall call :: call in Unregistered(calls, registry) ==> call.tool !in registry
  {
    PartsAdd(calls, registry);
    forall tier, call | call in Keep(calls, registry, tier)
      ensures call.tool in registry && registry[call.tool] == tier {
      KeptAre(calls, registry, tier, call);
    }
    forall call | call in Unregistered(calls, registry) ensures call.tool !in registry {
      KeptAre(calls, registry, ReadTool, call);
    }
  }

  lemma PartSizes(calls: seq<CannedCall>, registry: map<string, Registered>)
    ensures |calls|
      == |Keep(calls, registry, ReadTool)| + |Keep(calls, registry, WriteTool)| + |Unregistered(calls, registry)|
  {
    PartsAdd(calls, registry);
    assert |multiset(calls)| == |calls|;
  }

  /** The pairs of these calls, each once. */
  ghost predicate ListsPairs(pairs: seq<(string, string)>, calls: seq<CannedCall>) {
    && (forall i, j :: 0 <= i < j < |pairs| ==> pairs[i] != pairs[j])
    && forall pair :: pair in pairs <==> exists call <- calls :: call.Pair() == pair
  }

  /** `(scenario, tool)` names an unregistered fixture once, however often it was canned. */
  method PairsOnce(calls: seq<CannedCall>) returns (pairs: seq<(string, string)>)
    ensures ListsPairs(pairs, calls)
  {
    pairs := [];
    for i := 0 to |calls|
      invariant ListsPairs(pairs, calls[..i])
    {
      assert calls[..i + 1] == calls[..i] + [calls[i]];
      if calls[i].Pair() !in pairs {
        pairs := pairs + [calls[i].Pair()];
      }
    }
    assert calls[..|calls|] == calls;
  }

  /** The rest of `probe_live` once the platform is known to be seeded. */
  method ProbeReadable(calls: seq<CannedCall>, registry: map<string, Registered>, backoff: Backoff)
    returns (result: ProbeResult, skipped: nat, ghost cache: Cache, ghost probed: seq<CannedCall>)
    requires backoff.Valid()
    modifies backoff
    ensures backoff.Valid() && backoff.calls == old(backoff.calls) + |cache|
    ensures old(backoff.log) <= backoff.log
    ensures OnlyAsks(backoff.log[|old(backoff.log)|..], Keep(calls, registry, ReadTool))
    ensures Answered(backoff.platform, backoff.log, cache)
    ensures Reports(result, cache, probed) && KeyedBy(cache, probed)
    ensures multiset(probed) == multiset(Keep(calls, registry, ReadTool)) && ByIndex(probed)
    ensures skipped == |Keep(calls, registry, WriteTool)|
    ensures exists typos ::
      ListsPairs(typos, Unregistered(calls, registry)) && result.errors == typos + ErrorsOf(cache, probed)
  {
    var readable, strays := Keep(calls, registry, ReadTool), Unregistered(calls, registry);
    var typos := PairsOnce(strays);
    ghost var before := |backoff.log|;
    result, cache, probed := Probe(readable, backoff);
    AsksTheSame(backoff.log[before..], probed, readable);
    PartSizes(calls, registry);
    skipped := |calls| - |readable| - |strays|;
    result := result.(errors := typos + result.errors);
  }

  /** Only witnesses and then read-tier calls reach the platform, the latter after a witness listed a
      row; write-tier calls are counted, and a fixture no tool answers is an error of the run. */
  method ProbeLive(
      calls: seq<CannedCall>, registry: map<string, Registered>, platform: (nat, string, CallArguments) -> Reply)
    returns (check: SeedCheck, result: ProbeResult, skipped: nat, ghost run: LiveRun)
    ensures run.Valid() && OnlyWitnesses(run.requests[..run.witnessed])
    ensures check.Seeded? <==> RowsSeen(platform, run.requests[..run.witnessed], 0)
    ensures check.WitnessFailed? <==> !LastRead(platform, run.requests[..run.witnessed])
    ensures !check.Seeded? ==> run.witnessed == |run.requests|
    ensures check.Seeded? ==> OnlyAsks(run.requests[run.witnessed..], Keep(calls, registry, ReadTool))
    ensures check.Seeded? ==> Answered(platform, run.requests, run.cache) && run.series == |run.cache|
    ensures check.Seeded? ==> Reports(result, run.cache, run.probed) && KeyedBy(run.cache, run.probed)
    ensures check.Seeded? ==>
      multiset(run.probed) == multiset(Keep(calls, registry, ReadTool)) && ByIndex(run.probed)
    ensures check.Seeded? ==> skipped == |Keep(calls, registry, WriteTool)|
    ensures check.Seeded? ==>
      exists typos ::
        ListsPairs(typos, Unregistered(calls, registry)) && result.errors == typos + ErrorsOf(run.cache, run.probed)
  {
    var backoff := new Backoff(platform);
    check := AssertSeeded(backoff);
    result, skipped := ProbeResult([], [], {}, {}, Unknown, 0, 0), 0;
    ghost var cache, probed, witnesses, before := map[], [], backoff.log, backoff.calls;
    Prefix(witnesses, backoff.log);
    if check.Seeded? {
      result, skipped, cache, probed := ProbeReadable(calls, registry, backoff);
      Prefix(witnesses, backoff.log);
    }
    run := LiveRun(cache, probed, backoff.slept, backoff.remaining, backoff.log, |witnesses|, backoff.calls - before);
  }

  lemma Prefix<T>(a: seq<T>, b: seq<T>)
    requires a <= b
    ensures b[..|a|] == a && a[0..] == a
  {
  }

  lemma AsksTheSame(requests: seq<Request>, calls: seq<CannedCall>, same: seq<CannedCall>)
    requires OnlyAsks(requests, calls) && multiset(calls) == multiset(same)
    ensures OnlyAsks(requests, same)
  {
    forall request | request in requests ensures exists call <- same :: call.Asks() == request {
      var call :| call in calls && call.Asks() == request;
      assert call in multiset(same);
    }
  }
}
