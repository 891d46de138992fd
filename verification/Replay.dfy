/** The replay half of evals/recorded_client.py: a recording's answers indexed once, re-based once,
    and served with every call accounted for. */
module Replay {
  import opened Wrappers
  import opened Json
  import opened Rebase
  import opened RigidMotion
  import opened Recorder
  import opened ServedClocks

  // ----- Rebasing one reply -----

  /** A block after the shift: untouched bytes unless a declared clock in it moved. */
  ghost function RebasedBlock(block: Block, paths: set<Path>, delta: int): Option<Block> {
    if block.Opaque? || !block.payload.Obj? then Some(block)
    else
      match Motion(block.payload, paths, delta)
      case None => None
      case Some(shifted) => Some(if shifted.moved then Document(shifted.node, false) else block)
  }

  ghost function RebasedBlocks(blocks: seq<Block>, paths: set<Path>, delta: int): Option<seq<Block>> {
    if blocks == [] then Some([])
    else
      match (RebasedBlocks(blocks[..|blocks| - 1], paths, delta), RebasedBlock(blocks[|blocks| - 1], paths, delta))
      case (Some(init), Some(last)) => Some(init + [last])
      case _ => None
  }

  /** `None` when some declared clock would leave the calendar. */
  ghost function Rebased(tool: string, reply: Reply, delta: int): Option<Reply> {
    match RebasedBlocks(reply.blocks, ClockFields(tool), delta)
    case None => None
    case Some(blocks) => Some(reply.(blocks := blocks))
  }

  lemma FieldsAreKeyed(tool: string)
    ensures [] !in ClockFields(tool)
  {
  }

  lemma {:induction false} NothingToMove(blocks: seq<Block>, paths: set<Path>, delta: int)
    requires paths == {} || delta == 0
    requires delta == 0 ==>
      forall i :: 0 <= i < |blocks| && blocks[i].Document? ==> Fits(Clocks(blocks[i].payload, paths), 0)
    ensures RebasedBlocks(blocks, paths, delta) == Some(blocks)
  {
    if blocks != [] {
      var init, last := blocks[..|blocks| - 1], blocks[|blocks| - 1];
      assert blocks == init + [last];
      NothingToMove(init, paths, delta);
      if last.Document? && paths == {} {
        NoMotion(last.payload, delta);
      }
    }
  }

  /** Every declared clock of a recording is a datetime to begin with. */
  ghost predicate OnCalendar(tool: string, reply: Reply) {
    forall i :: 0 <= i < |reply.blocks| && reply.blocks[i].Document? ==> Fits(Clocks(reply.blocks[i].payload,
      ClockFields(tool)), 0)
  }

  lemma BlockIsShifted(block: Block, paths: set<Path>, delta: int)
    ensures RebasedBlock(block, paths, delta).None? <==> BlockOverflows(paths, block, delta)
    ensures RebasedBlock(block, paths, delta).Some? ==>
      BlockShifted(paths, block, RebasedBlock(block, paths, delta).value, delta)
  {
    if block.Document? && block.payload.Obj? {
      OverflowIs(paths, block.payload, delta);
      HasClockIs(paths, block.payload);
      EachLeafShifted(paths, block.payload, delta);
      if delta == 0 || !HasClock(paths, block.payload) {
        StillShifted(paths, block.payload, delta);
      }
    }
  }

  ghost predicate BlocksShifted(before: seq<Block>, after: seq<Block>, paths: set<Path>, delta: int) {
    |after| == |before| && forall i :: 0 <= i < |before| ==> BlockShifted(paths, before[i], after[i], delta)
  }

  lemma {:induction false} BlocksAreShifted(blocks: seq<Block>, paths: set<Path>, delta: int)
    ensures RebasedBlocks(blocks, paths, delta).None? <==> exists block <- blocks :: BlockOverflows(paths, block, delta)
    ensures RebasedBlocks(blocks, paths, delta).Some? ==>
      BlocksShifted(blocks, RebasedBlocks(blocks, paths, delta).value, paths, delta)
  {
    if blocks != [] {
      var init, last := blocks[..|blocks| - 1], blocks[|blocks| - 1];
      assert blocks == init + [last];
      BlocksAreShifted(init, paths, delta);
      BlockIsShifted(last, paths, delta);
    }
  }

  /** Re-basing shifts a reply, block by block and leaf by leaf, and fails exactly when a clock leaves the calendar. */
  lemma RebasedIsShifted(tool: string, reply: Reply, delta: int)
    ensures Rebased(tool, reply, delta).None? <==> LeavesCalendar(tool, reply, delta)
    ensures Rebased(tool, reply, delta).Some? ==> Shifts(tool, reply, Rebased(tool, reply, delta).value, delta)
  {
    BlocksAreShifted(reply.blocks, ClockFields(tool), delta);
  }

  method RebaseResult(tool: string, reply: Reply, delta: int) returns (result: Option<Reply>)
    requires OnCalendar(tool, reply)
    ensures result == Rebased(tool, reply, delta)
    ensures result.None? <==> LeavesCalendar(tool, reply, delta)
    ensures result.Some? ==> Shifts(tool, reply, result.value, delta)
  {
    RebasedIsShifted(tool, reply, delta);
    var paths := ClockFields(tool);
    FieldsAreKeyed(tool);
    if paths == {} || delta == 0 {
      NothingToMove(reply.blocks, paths, delta);
      return Some(reply);
    }
    var blocks: seq<Block> := [];
    var changed := false;
    for i := 0 to |reply.blocks|
      invariant RebasedBlocks(reply.blocks[..i], paths, delta) == Some(blocks)
      invariant !changed ==> blocks == reply.blocks[..i]
    {
      var rebased, moved := RebaseBlock(reply.blocks[i], paths, delta);
      OneMoreBlock(reply.blocks, i, paths, delta);
      if rebased.None? {
        OneBlockFails(reply.blocks, i, paths, delta);
        return None;
      }
      blocks := blocks + [rebased.value];
      changed := changed || moved;
    }
    assert reply.blocks[..|reply.blocks|] == reply.blocks;
    result := Some(if changed then reply.(blocks := blocks) else reply);
  }

  method RebaseBlock(block: Block, paths: set<Path>, delta: int) returns (rebased: Option<Block>, moved: bool)
    requires [] !in paths && (block.Document? ==> Fits(Clocks(block.payload, paths), 0))
    ensures rebased == RebasedBlock(block, paths, delta)
    ensures rebased.Some? && !moved ==> rebased.value == block
  {
    if block.Opaque? || !block.payload.Obj? {
      return Some(block), false;
    }
    var shifted := ShiftPaths(block.payload, paths, delta);
    if shifted.None? {
      return None, false;
    }
    if !shifted.value.moved {
      return Some(block), false;
    }
    return Some(Document(shifted.value.node, false)), true;
  }

  lemma OneMoreBlock(blocks: seq<Block>, i: nat, paths: set<Path>, delta: int)
    requires i < |blocks|
    ensures var before, block := RebasedBlocks(blocks[..i], paths, delta), RebasedBlock(blocks[i], paths, delta);
      RebasedBlocks(blocks[..i + 1], paths, delta) ==
        if before.Some? && block.Some? then Some(before.value + [block.value]) else None
    ensures blocks[..i + 1] == blocks[..i] + [blocks[i]]
  {
    assert blocks[..i + 1][..i] == blocks[..i];
  }

  lemma {:induction false} OneBlockFails(blocks: seq<Block>, i: nat, paths: set<Path>, delta: int)
    requires i < |blocks| && RebasedBlock(blocks[i], paths, delta).None?
    ensures RebasedBlocks(blocks, paths, delta).None?
  {
    if i < |blocks| - 1 {
      OneBlockFails(blocks[..|blocks| - 1], i, paths, delta);
    }
  }

  // ----- The recording and its linear scan -----

  /** `RecordedWorld.answer`: the first recorded call under the wired arguments' key. */
  function Scan(calls: seq<RecordedCall>, key: string): Option<RecordedCall> {
    if calls == [] then None else if calls[0].key == key then Some(calls[0]) else Scan(calls[1..], key)
  }

  function AnswerOf(t: Tools, calls: seq<RecordedCall>, tool: string, arguments: Arguments): Option<RecordedCall> {
    match t.Wired(tool, arguments)
    case None => None
    case Some(wired) => Scan(calls, t.CallKey(tool, wired))
  }

  /** The lookup `call_tool` makes: the last recorded call under the wired arguments' key. */
  function IndexedOf(t: Tools, calls: seq<RecordedCall>, tool: string, arguments: Arguments): Option<RecordedCall> {
    match t.Wired(tool, arguments)
    case None => None
    case Some(wired) => LastUnder(calls, t.CallKey(tool, wired))
  }

  /** `replay_key`: the key to look up, or none for an unknown tool or arguments that do not validate. */
  function ReplayKey(t: Tools, tool: string, arguments: Arguments): Option<string> {
    match t.Wired(tool, arguments)
    case None => None
    case Some(wired) => Some(t.CallKey(tool, wired))
  }

  ghost predicate DistinctKeys(calls: seq<RecordedCall>) {
    forall i, j :: 0 <= i < j < |calls| ==> calls[i].key != calls[j].key
  }

  ghost predicate Untouched(t: Tools, calls: seq<RecordedCall>) {
    forall i :: 0 <= i < |calls| ==> calls[i].key == t.CallKey(calls[i].tool, calls[i].arguments)
  }

  /** Every recorded clock stays on the calendar when moved by this much. */
  ghost predicate AllShift(calls: seq<RecordedCall>, delta: int) {
    forall i :: 0 <= i < |calls| ==> Rebased(calls[i].tool, calls[i].reply, delta).Some?
  }

  ghost predicate Readable(calls: seq<RecordedCall>) {
    forall i :: 0 <= i < |calls| ==> OnCalendar(calls[i].tool, calls[i].reply)
  }

  /** The last recorded call under a key: what a dictionary filled in document order keeps. */
  function LastUnder(calls: seq<RecordedCall>, key: string): Option<RecordedCall> {
    if calls == [] then None
    else if calls[|calls| - 1].key == key then Some(calls[|calls| - 1])
    else LastUnder(calls[..|calls| - 1], key)
  }

  /** The index holds, for each key, the last call's reply re-based. */
  ghost predicate IsIndex(answers: map<string, Reply>, calls: seq<RecordedCall>, delta: int) {
    forall key ::
      match LastUnder(calls, key) {
        case None => key !in answers
        case Some(call) => key in answers && Rebased(call.tool, call.reply, delta) == Some(answers[key])
      }
  }

  datatype LoadError = EditedRecording(call: nat) | ClockOverflow(call: nat) | NoCalls

  /** `replay_answers`: refuses a call whose stored key is not its own. */
  method ReplayAnswers(t: Tools, calls: seq<RecordedCall>, delta: int)
    returns (r: Result<map<string, Reply>, LoadError>)
    requires Readable(calls)
    ensures r.Ok? ==> Untouched(t, calls) && AllShift(calls, delta) && IsIndex(r.value, calls, delta)
    ensures r.Err? ==> match r.error {
      case EditedRecording(n) => n < |calls| && calls[n].key != t.CallKey(calls[n].tool, calls[n].arguments)
      case ClockOverflow(n) => n < |calls| && Rebased(calls[n].tool, calls[n].reply, delta).None?
      case NoCalls => false
    }
  {
    var answers: map<string, Reply> := map[];
    for n := 0 to |calls|
      invariant Untouched(t, calls[..n]) && AllShift(calls[..n], delta)
      invariant IsIndex(answers, calls[..n], delta)
    {
      var call := calls[n];
      if t.CallKey(call.tool, call.arguments) != call.key {
        return Err(EditedRecording(n));
      }
      var rebased := RebaseResult(call.tool, call.reply, delta);
      if rebased.None? {
        return Err(ClockOverflow(n));
      }
      GoodOneMore(t, calls, n, delta);
      IndexOneMore(answers, calls, n, delta, rebased.value);
      answers := answers[call.key := rebased.value];
    }
    assert calls[..|calls|] == calls;
    r := Ok(answers);
  }

  lemma GoodOneMore(t: Tools, calls: seq<RecordedCall>, n: nat, delta: int)
    requires n < |calls| && Untouched(t, calls[..n]) && AllShift(calls[..n], delta)
    requires calls[n].key == t.CallKey(calls[n].tool, calls[n].arguments)
    requires Rebased(calls[n].tool, calls[n].reply, delta).Some?
    ensures Untouched(t, calls[..n + 1]) && AllShift(calls[..n + 1], delta)
  {
    assert calls[..n + 1] == calls[..n] + [calls[n]];
  }

  lemma IndexOneMore(answers: map<string, Reply>, calls: seq<RecordedCall>, n: nat, delta: int, reply: Reply)
    requires n < |calls| && IsIndex(answers, calls[..n], delta)
    requires Rebased(calls[n].tool, calls[n].reply, delta) == Some(reply)
    ensures IsIndex(answers[calls[n].key := reply], calls[..n + 1], delta)
  {
    assert calls[..n + 1][..n] == calls[..n];
    var after := answers[calls[n].key := reply];
    forall key
      ensures match LastUnder(calls[..n + 1], key) {
        case None => key !in after
        case Some(call) => key in after && Rebased(call.tool, call.reply, delta) == Some(after[key])
      }
    {
      assert LastUnder(calls[..n + 1], key) == if calls[n].key == key then Some(calls[n])
        else LastUnder(calls[..n], key);
    }
  }

  lemma {:induction false} ScanFinds(calls: seq<RecordedCall>, key: string)
    ensures Scan(calls, key).None? <==> forall i :: 0 <= i < |calls| ==> calls[i].key != key
    ensures Scan(calls, key).Some? ==> Scan(calls, key).value in calls && Scan(calls, key).value.key == key
  {
    if calls != [] {
      ScanFinds(calls[1..], key);
      assert forall i :: 0 <= i < |calls[1..]| ==> calls[1..][i] == calls[i + 1];
    }
  }

  lemma {:induction false} LastFinds(calls: seq<RecordedCall>, key: string)
    ensures LastUnder(calls, key).None? <==> forall i :: 0 <= i < |calls| ==> calls[i].key != key
    ensures LastUnder(calls, key).Some? ==>
      LastUnder(calls, key).value in calls && LastUnder(calls, key).value.key == key
  {
    if calls != [] {
      LastFinds(calls[..|calls| - 1], key);
    }
  }

  predicate IsFirst(calls: seq<RecordedCall>, i: nat)
    requires i < |calls|
  {
    forall k :: 0 <= k < i ==> calls[k].key != calls[i].key
  }

  predicate IsLast(calls: seq<RecordedCall>, i: nat)
    requires i < |calls|
  {
    forall k :: i < k < |calls| ==> calls[k].key != calls[i].key
  }

  /** No key's first and last recorded calls differ. */
  predicate NoneShadowed(calls: seq<RecordedCall>) {
    forall i, j ::
      0 <= i < |calls| && 0 <= j < |calls| && IsFirst(calls, i) && IsLast(calls, j) && calls[i].key == calls[j].key
      ==> calls[i] == calls[j]
  }

  lemma {:induction false} ScanIsFirst(calls: seq<RecordedCall>, i: nat)
    requires i < |calls| && IsFirst(calls, i)
    ensures Scan(calls, calls[i].key) == Some(calls[i])
  {
    if i > 0 {
      assert forall k :: 0 <= k < i - 1 ==> calls[1..][k] == calls[k + 1];
      ScanIsFirst(calls[1..], i - 1);
    }
  }

  lemma {:induction false} LastIsLast(calls: seq<RecordedCall>, j: nat)
    requires j < |calls| && IsLast(calls, j)
    ensures LastUnder(calls, calls[j].key) == Some(calls[j])
  {
    if j < |calls| - 1 {
      LastIsLast(calls[..|calls| - 1], j);
    }
  }

  lemma {:induction false} EndsOf(calls: seq<RecordedCall>, key: string) returns (i: nat, j: nat)
    requires exists k :: 0 <= k < |calls| && calls[k].key == key
    ensures i < |calls| && j < |calls| && calls[i].key == key && calls[j].key == key && IsFirst(calls, i)
      && IsLast(calls, j)
  {
    i := 0;
    while calls[i].key != key
      invariant i < |calls| && forall k :: 0 <= k < i ==> calls[k].key != key
      decreases |calls| - i
    {
      i := i + 1;
    }
    j := |calls| - 1;
    while calls[j].key != key
      invariant i <= j < |calls| && forall k :: j < k < |calls| ==> calls[k].key != key
      decreases j
    {
      j := j - 1;
    }
  }

  ghost predicate Agrees(calls: seq<RecordedCall>, key: string) {
    LastUnder(calls, key) == Scan(calls, key)
  }

  lemma AgreesUnshadowed(calls: seq<RecordedCall>, key: string)
    requires NoneShadowed(calls)
    ensures Agrees(calls, key)
  {
    ScanFinds(calls, key);
    LastFinds(calls, key);
    if exists k :: 0 <= k < |calls| && calls[k].key == key {
      var i, j := EndsOf(calls, key);
      ScanIsFirst(calls, i);
      LastIsLast(calls, j);
    }
  }

  lemma UnshadowedAgreeing(calls: seq<RecordedCall>)
    requires forall key :: Agrees(calls, key)
    ensures NoneShadowed(calls)
  {
    forall i, j | 0 <= i < |calls| && 0 <= j < |calls| && IsFirst(calls, i) && IsLast(calls, j)
      && calls[i].key == calls[j].key
      ensures calls[i] == calls[j]
    {
      ScanIsFirst(calls, i);
      LastIsLast(calls, j);
      assert Agrees(calls, calls[i].key);
    }
  }

  /** The dictionary and the linear scan agree on every key exactly when no call shadows a different
      one; distinct keys are enough. */
  lemma IndexAgreesWithScan(calls: seq<RecordedCall>)
    ensures (forall key :: Agrees(calls, key)) <==> NoneShadowed(calls)
    ensures DistinctKeys(calls) ==> NoneShadowed(calls)
  {
    if NoneShadowed(calls) {
      forall key ensures Agrees(calls, key) { AgreesUnshadowed(calls, key); }
    }
    if forall key :: Agrees(calls, key) {
      UnshadowedAgreeing(calls);
    }
  }

  /** So a replayed read is answered as the recording's own linear scan would answer it. */
  lemma ServedAsScanned(t: Tools, calls: seq<RecordedCall>, tool: string, arguments: Arguments)
    requires NoneShadowed(calls)
    ensures IndexedOf(t, calls, tool, arguments) == AnswerOf(t, calls, tool, arguments)
  {
    var wired := t.Wired(tool, arguments);
    if wired.Some? {
      AgreesUnshadowed(calls, t.CallKey(tool, wired.value));
    }
  }

  // ----- The client -----

  datatype Response = Served(reply: Reply) | NotRecorded | Refused

  datatype Miss = Miss(tool: string, key: string, arguments: Arguments)

  datatype Refusal = Unclassifiable(tool: string) | AboveRead(tool: string, tier: Tier)

  /** The one response a call may get from a recording, whatever was called before. */
  ghost predicate Truthful(
      t: Tools, world: seq<RecordedCall>, offset: int, name: string, arguments: Arguments, response: Response) {
    if name !in t.registry || t.registry[name] != Read then response == Refused
    else match IndexedOf(t, world, name, arguments)
      case None => response == NotRecorded
      case Some(call) => response.Served? && Rebased(call.tool, call.reply, offset) == Some(response.reply)
  }

  /** Over distinct keys, a read's reply is the re-based answer of the recording's own linear scan, and
      `not_recorded` exactly when that scan finds nothing. */
  lemma RepliesAreTheScans(
      t: Tools, world: seq<RecordedCall>, offset: int, name: string, arguments: Arguments, response: Response)
    requires DistinctKeys(world) && name in t.registry && t.registry[name] == Read
    requires Truthful(t, world, offset, name, arguments, response)
    ensures match AnswerOf(t, world, name, arguments)
      case None => response.NotRecorded?
      case Some(call) => response.Served? && Rebased(call.tool, call.reply, offset) == Some(response.reply)
  {
    IndexAgreesWithScan(world);
    ServedAsScanned(t, world, name, arguments);
  }

  /** What is served is a recorded call's reply, shifted by the offset. */
  lemma ServedIsShifted(
      t: Tools, world: seq<RecordedCall>, offset: int, name: string, arguments: Arguments, response: Response)
    requires Truthful(t, world, offset, name, arguments, response) && response.Served?
    ensures exists call <- world ::
      && call.key == t.CallKey(name, t.Wired(name, arguments).value)
      && Shifts(call.tool, call.reply, response.reply, offset)
  {
    var call := IndexedOf(t, world, name, arguments).value;
    LastFinds(world, t.CallKey(name, t.Wired(name, arguments).value));
    RebasedIsShifted(call.tool, call.reply, offset);
  }

  /** The call whose reply is served has the tool asked for and arguments of the same digest, where no name
      holds a space. */
  lemma ServedForItsOwnTool(t: Tools, world: seq<RecordedCall>, name: string, arguments: Arguments)
    requires Untouched(t, world) && ' ' !in name && forall call <- world :: ' ' !in call.tool
    requires IndexedOf(t, world, name, arguments).Some?
    ensures var call := IndexedOf(t, world, name, arguments).value;
      call.tool == name && t.Digest(call.arguments) == t.Digest(t.Wired(name, arguments).value)
  {
    var wired := t.Wired(name, arguments).value;
    LastFinds(world, t.CallKey(name, wired));
    var call := IndexedOf(t, world, name, arguments).value;
    KeyNamesItsTool(t, call.tool, call.arguments, name, wired);
  }

  // ----- What was recorded is what is replayed -----

  /** Every recording of pairwise different, separately keyed calls can be replayed: no key is edited and no
      two are one. */
  lemma RecordingsAreReplayable(
      t: Tools, probes: seq<Probe>, ask: (string, Arguments) -> Answer, sessions: nat -> Session,
      world: seq<RecordedCall>)
    requires DistinctCalls(probes) && KeysSeparate(t, probes) && IsRecording(t, probes, ask, sessions, world)
    ensures Untouched(t, world) && DistinctKeys(world)
  {
    RecordingIsOrdered(t, probes, ask, sessions, world);
    forall i | 0 <= i < |world| ensures world[i].key == t.CallKey(world[i].tool, world[i].arguments) {
      var c := World(world)[i];
      assert c in World(world);
      var probe :| probe in probes && CallOf(t, probe, ask) == Some(c);
    }
    forall i, j | 0 <= i < j < |world| ensures world[i].key != world[j].key {
      assert KeyBefore(World(world)[i], World(world)[j]);
    }
  }

  /** The round trip: asked again what it was recorded from, a recording gives each answered call the
      platform's own reply, re-based, and `not_recorded` to each call the platform did not answer. */
  lemma RecordedIsReplayed(
      t: Tools, probes: seq<Probe>, ask: (string, Arguments) -> Answer, sessions: nat -> Session,
      world: seq<RecordedCall>,
      offset: int, probe: Probe, response: Response)
    requires DistinctCalls(probes) && KeysSeparate(t, probes) && IsRecording(t, probes, ask, sessions, world)
    requires probe in probes && t.Wired(probe.tool, probe.arguments) == Some(probe.arguments)
      && t.registry[probe.tool] == Read
    requires Truthful(t, world, offset, probe.tool, probe.arguments, response)
    ensures match ask(probe.tool, probe.arguments)
      case Answered(reply) =>
        && response.Served? && Rebased(probe.tool, reply, offset) == Some(response.reply)
        && Shifts(probe.tool, reply, response.reply, offset)
      case Unreached(_) => response.NotRecorded?
  {
    var key := t.CallKey(probe.tool, probe.arguments);
    RecordingIsOrdered(t, probes, ask, sessions, world);
    LastFinds(world, key);
    match ask(probe.tool, probe.arguments)
    case Answered(reply) =>
      var c := CallOf(t, probe, ask).value;
      assert c in World(world);
      var i :| 0 <= i < |world| && World(world)[i] == c;
      assert LastUnder(world, key).Some?;
      OnlyCallUnder(t, probes, ask, sessions, world, probe, LastUnder(world, key).value);
      RebasedIsShifted(probe.tool, reply, offset);
    case Unreached(_) =>
      if LastUnder(world, key).Some? {
        OnlyCallUnder(t, probes, ask, sessions, world, probe, LastUnder(world, key).value);
      }
  }

  /** What is recorded under a probe's key is that probe's own answer. */
  lemma OnlyCallUnder(
      t: Tools, probes: seq<Probe>, ask: (string, Arguments) -> Answer, sessions: nat -> Session,
      world: seq<RecordedCall>,
      probe: Probe, call: RecordedCall)
    requires DistinctCalls(probes) && KeysSeparate(t, probes) && IsRecording(t, probes, ask, sessions, world)
    requires probe in probes && call in world && call.key == t.CallKey(probe.tool, probe.arguments)
    ensures call.tool == probe.tool && ask(probe.tool, probe.arguments) == Answered(call.reply)
  {
    RecordingIsOrdered(t, probes, ask, sessions, world);
    var i :| 0 <= i < |world| && world[i] == call;
    assert World(world)[i] == OfWorld(call) && OfWorld(call) in World(world);
    var source :| source in probes && CallOf(t, source, ask) == Some(OfWorld(call));
    assert SameCall(source, probe);
  }

  function MissOf(t: Tools, name: string, arguments: Arguments): Miss {
    Miss(name, if ReplayKey(t, name, arguments).Some? then ReplayKey(t, name, arguments).value else "", arguments)
  }

  /** A miss names its call, and a key no recorded call has: none where the arguments do not validate. */
  ghost predicate MissIsTrue(t: Tools, world: seq<RecordedCall>, name: string, arguments: Arguments, miss: Miss) {
    && miss.tool == name && miss.arguments == arguments
    && match t.Wired(name, arguments)
      case None => miss.key == ""
      case Some(wired) => miss.key == t.CallKey(name, wired) && forall call <- world :: call.key != miss.key
  }

  /** A refusal says which tool was asked for, and its tier where it has one. */
  predicate RefusalIsTrue(t: Tools, name: string, refusal: Refusal) {
    match refusal
    case Unclassifiable(tool) => tool == name && name !in t.registry
    case AboveRead(tool, tier) => tool == name && name in t.registry && t.registry[name] == tier && tier != Read
  }

  function RefusalOf(t: Tools, name: string): Refusal {
    if name in t.registry then AboveRead(name, t.registry[name]) else Unclassifiable(name)
  }

  datatype Outcome = Answers | Misses | Refusals

  function OutcomeOf(response: Response): Outcome {
    match response
    case Served(_) => Answers
    case NotRecorded => Misses
    case Refused => Refusals
  }

  function CountOf(responses: seq<Response>, outcome: Outcome): nat {
    if responses == [] then 0
    else
      CountOf(responses[..|responses| - 1], outcome) + if OutcomeOf(responses[|responses| - 1]) == outcome then 1 else 0
  }

  class RecordedMCPClient {
    const tools: Tools
    const world: seq<RecordedCall>
    const offset: int
    const answers: map<string, Reply>
    var calls: seq<(string, Arguments)>
    var misses: seq<Miss>
    var refusals: seq<Refusal>
    var answered: nat

    /** The index is the recording's own, and every call was answered, missed or refused. */
    ghost predicate Valid()
      reads this
    {
      && world != [] && Untouched(tools, world)
      && IsIndex(answers, world, offset)
      && |calls| == answered + |misses| + |refusals|
    }

    constructor (tools: Tools, world: seq<RecordedCall>, offset: int, answers: map<string, Reply>)
      requires world != [] && Untouched(tools, world) && IsIndex(answers, world, offset)
      ensures Valid() && calls == [] && misses == [] && refusals == [] && answered == 0
      ensures this.tools == tools && this.world == world && this.offset == offset
    {
      this.tools, this.world, this.offset, this.answers := tools, world, offset, answers;
      calls, misses, refusals, answered := [], [], [], 0;
    }

    /** `call_tool`: a read is served from the index, re-based; a read the recording does not hold is a
        miss; anything above read, or unknown, is refused. */
    method CallTool(name: string, arguments: Arguments) returns (response: Response)
      requires Valid()
      modifies this
      ensures Valid()
      ensures calls == old(calls) + [(name, arguments)]
      ensures Truthful(tools, world, offset, name, arguments, response)
      ensures answered == old(answered) + if response.Served? then 1 else 0
      ensures misses == old(misses) + if response.NotRecorded? then [MissOf(tools, name, arguments)] else []
      ensures refusals == old(refusals) + if response.Refused? then [RefusalOf(tools, name)] else []
      ensures response.Refused? <==> name !in tools.registry || tools.registry[name] != Read
      ensures response.Refused? ==> RefusalIsTrue(tools, name, refusals[|refusals| - 1])
      ensures response.NotRecorded? ==> MissIsTrue(tools, world, name, arguments, misses[|misses| - 1])
    {
      calls := calls + [(name, arguments)];
      if name !in tools.registry {
        refusals := refusals + [Unclassifiable(name)];
        return Refused;
      }
      if tools.registry[name] != Read {
        refusals := refusals + [AboveRead(name, tools.registry[name])];
        return Refused;
      }
      var key := ReplayKey(tools, name, arguments);
      if key.None? {
        misses := misses + [Miss(name, "", arguments)];
        return NotRecorded;
      }
      LastFinds(world, key.value);
      if key.value !in answers {
        misses := misses + [Miss(name, key.value, arguments)];
        return NotRecorded;
      }
      answered := answered + 1;
      response := Served(answers[key.value]);
    }

    /** Some call was not served. */
    predicate Degraded()
      reads this
    {
      misses != [] || refusals != []
    }
  }

  /** `RecordedMCPClient(world, ...)`: a client over every recording that is not empty, not edited and can be
      shifted, and over no other. */
  method Open(t: Tools, world: seq<RecordedCall>, offset: int) returns (r: Result<RecordedMCPClient, LoadError>)
    requires Readable(world)
    ensures r.Ok? <==> world != [] && Untouched(t, world) && AllShift(world, offset)
    ensures world == [] <==> r == Err(NoCalls)
    ensures r.Ok? ==> fresh(r.value) && r.value.Valid()
    ensures r.Ok? ==> r.value.tools == t && r.value.world == world && r.value.offset == offset
    ensures r.Ok? ==> r.value.calls == [] && r.value.misses == [] && r.value.refusals == [] && r.value.answered == 0
  {
    if world == [] {
      return Err(NoCalls);
    }
    var answers := ReplayAnswers(t, world, offset);
    match answers
    case Err(error) => return Err(error);
    case Ok(index) =>
      var client := new RecordedMCPClient(t, world, offset, index);
      return Ok(client);
  }

  ghost predicate AllTruthful(
      t: Tools, world: seq<RecordedCall>, offset: int, script: seq<(string, Arguments)>, responses: seq<Response>) {
    |responses| == |script| && forall i ::
      0 <= i < |script| ==> Truthful(t, world, offset, script[i].0, script[i].1, responses[i])
  }

  lemma TruthfulOneMore(
      t: Tools, world: seq<RecordedCall>, offset: int, script: seq<(string, Arguments)>, responses: seq<Response>,
      i: nat, response: Response)
    requires i < |script| && AllTruthful(t, world, offset, script[..i], responses)
    requires Truthful(t, world, offset, script[i].0, script[i].1, response)
    ensures AllTruthful(t, world, offset, script[..i + 1], responses + [response])
    ensures script[..i + 1] == script[..i] + [script[i]]
  {
  }

  /** The three counters have grown by the responses of each kind. */
  predicate Tallied(responses: seq<Response>, answered: int, missed: int, refused: int) {
    && answered == CountOf(responses, Answers)
    && missed == CountOf(responses, Misses)
    && refused == CountOf(responses, Refusals)
  }

  lemma TalliedOneMore(responses: seq<Response>, response: Response, answered: int, missed: int, refused: int)
    requires Tallied(responses, answered, missed, refused)
    ensures Tallied(responses + [response], answered + (if response.Served? then 1 else 0),
      missed + (if response.NotRecorded? then 1 else 0), refused + if response.Refused? then 1 else 0)
  {
    assert (responses + [response])[..|responses|] == responses;
  }

  lemma {:induction false} EveryResponseCounts(responses: seq<Response>)
    ensures |responses| == CountOf(responses, Answers) + CountOf(responses, Misses) + CountOf(responses, Refusals)
  {
    if responses != [] {
      EveryResponseCounts(responses[..|responses| - 1]);
    }
  }

  lemma {:induction false} CleanMeansServed(responses: seq<Response>)
    ensures CountOf(responses, Misses) == 0 && CountOf(responses, Refusals) == 0 <==>
      forall response <- responses :: response.Served?
  {
    if responses != [] {
      var init, last := responses[..|responses| - 1], responses[|responses| - 1];
      assert responses == init + [last];
      CleanMeansServed(init);
    }
  }

  /** A whole run: each response is its own call's, and the counters count the responses. */
  method Session(client: RecordedMCPClient, script: seq<(string, Arguments)>) returns (responses: seq<Response>)
    requires client.Valid()
    modifies client
    ensures client.Valid() && client.calls == old(client.calls) + script
    ensures AllTruthful(client.tools, client.world, client.offset, script, responses)
    ensures Tallied(responses, client.answered - old(client.answered),
      |client.misses| - old(|client.misses|), |client.refusals| - old(|client.refusals|))
    ensures |script| == client.answered - old(client.answered) + |client.misses| - old(|client.misses|)
      + |client.refusals| - old(|client.refusals|)
    ensures old(!client.Degraded()) ==> (client.Degraded() <==> exists response <- responses :: !response.Served?)
  {
    responses := [];
    ghost var answered, missed, refused := client.answered, |client.misses|, |client.refusals|;
    for i := 0 to |script|
      invariant client.Valid() && client.calls == old(client.calls) + script[..i]
      invariant AllTruthful(client.tools, client.world, client.offset, script[..i], responses)
      invariant Tallied(responses, client.answered - answered, |client.misses| - missed, |client.refusals| - refused)
    {
      ghost var a, m, r := client.answered - answered, |client.misses| - missed, |client.refusals| - refused;
      var response := client.CallTool(script[i].0, script[i].1);
      TalliedOneMore(responses, response, a, m, r);
      TruthfulOneMore(client.tools, client.world, client.offset, script, responses, i, response);
      responses := responses + [response];
    }
    assert script[..|script|] == script;
    EveryResponseCounts(responses);
    CleanMeansServed(responses);
  }
}
