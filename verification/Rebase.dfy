/** The clock shift of evals/recorded_client.py: every declared clock of a recorded result moves
    by one offset, and nothing else moves. */
module Rebase {
  import opened Wrappers
  import opened Json

  /** A string leaf: one that reads as an ISO 8601 instant (in microseconds), or any other. */
  datatype Stamp = Instant(at: int) | Words(words: string)

  type Payload = Json<Stamp>

  /** The first and last instant a datetime can hold: years 1 to 9999. */
  const FIRST_INSTANT: int := -62135596800000000
  const LAST_INSTANT: int := 253402300799999999

  predicate InRange(at: int) {
    FIRST_INSTANT <= at <= LAST_INSTANT
  }

  const SHIFTED_CLOCK_FIELDS: map<string, set<Path>> := map[
    "get_consumer_lag" := {["measured_at"], ["recent_samples", "measured_at"], ["last_poll_at"]},
    "get_control_loops" := {["measured_at"], ["loops", "last_run_at"]},
    "get_dag_state" := {["nodes", "created_at"]},
    "get_deploy_history" := {["entries", "deployed_at"]},
    "get_incident" := {["fired_at"], ["resolved_at"]},
    "get_trace" := {["jobs", "created_at"], ["jobs", "updated_at"], ["audit_events", "created_at"]},
    "list_active_alerts" := {["alerts", "fired_at"]},
    "list_audit_events" := {["events", "created_at"]},
    "list_dlq_messages" := {
      ["items", "created_at"], ["items", "updated_at"], ["items", "dead_lettered_at"], ["items", "fenced_at"]},
    "list_incidents" := {["incidents", "fired_at"], ["incidents", "resolved_at"]},
    "get_outbox_status" := {
      ["measured_at"], ["oldest_unpublished_at"], ["newest_unpublished_at"], ["last_publish_at"],
      ["relay_last_tick_at"]},
    "get_circuit_breakers" := {
      ["measured_at"], ["breakers", "last_state_change_at"], ["breakers", "last_failure_at"],
      ["breakers", "recorded_at"]},
    "get_postgres_health" := {["pools", "written_at"]},
    "get_slo_status" := {["measured_at"]},
    "search_traces" := {["matches", "created_at"]}]

  function ClockFields(tool: string): set<Path> {
    if tool in SHIFTED_CLOCK_FIELDS then SHIFTED_CLOCK_FIELDS[tool] else {}
  }

  // ----- The shift, path by path -----

  datatype Shifted = Shifted(node: Payload, moved: bool)

  /** `_shift_timestamp`: nothing but an instant moves, and one that would leave the calendar raises. */
  function ShiftStamp(leaf: Payload, delta: int): Option<Payload> {
    if leaf.Str? && leaf.text.Instant? then
      if InRange(leaf.text.at + delta) then Some(Str(Instant(leaf.text.at + delta))) else None
    else Some(leaf)
  }

  /** `_shift_at_path`: every value at one key path, through lists; `None` when a clock overflows. */
  function ShiftAt(node: Payload, parts: Path, delta: int): Option<Shifted>
    requires parts != []
    decreases node, 1
  {
    match node
    case Arr(items) =>
      ShiftItems(items, parts, delta)
    case Obj(fields) =>
      var head, rest := parts[0], parts[1..];
      if head !in fields then Some(Shifted(node, false))
      else if rest != [] then
        match ShiftAt(fields[head], rest, delta) {
          case None => None
          case Some(below) => Some(Shifted(Obj(fields[head := below.node]), below.moved))
        }
      else
        match ShiftStamp(fields[head], delta) {
          case None => None
          case Some(shifted) =>
            if shifted == fields[head] then Some(Shifted(node, false))
              else Some(Shifted(Obj(fields[head := shifted]), true))
        }
    case _ => Some(Shifted(node, false))
  }

  function ShiftItems(items: seq<Payload>, parts: Path, delta: int): (s: Option<Shifted>)
    requires parts != []
    ensures s.Some? ==> s.value.node.Arr?
    decreases items, 0
  {
    if items == [] then Some(Shifted(Arr([]), false))
    else
      match (ShiftAt(items[0], parts, delta), ShiftItems(items[1..], parts, delta)) {
        case (Some(head), Some(tail)) => Some(Shifted(Arr([head.node] + tail.node.items), head.moved || tail.moved))
        case _ => None
      }
  }

  // ----- The shift as one motion -----

  /** What is left of the paths below a key. */
  function Below(paths: set<Path>, key: string): set<Path> {
    set path | path in paths && path != [] && path[0] == key :: path[1..]
  }

  predicate IsClock(v: Payload) {
    v.Str? && v.text.Instant?
  }

  /** Every clock at a declared path, moved by `delta` at once. */
  function Moved(node: Payload, paths: set<Path>, delta: int): Payload
    decreases node, 0
  {
    match node
    case Arr(items) => Arr(seq(|items|, i requires 0 <= i < |items| => Moved(items[i], paths, delta)))
    case Obj(fields) => Obj(map k | k in fields :: MovedField(fields[k], Below(paths, k), delta))
    case _ => node
  }

  function MovedField(value: Payload, below: set<Path>, delta: int): Payload
    decreases value, 1
  {
    if IsClock(value) then (if [] in below then Str(Instant(value.text.at + delta)) else value)
    else Moved(value, below, delta)
  }

  /** The declared clocks of a payload. */
  ghost function Clocks(node: Payload, paths: set<Path>): set<int>
    decreases node, 0
  {
    match node
    case Arr(items) => set i, t | 0 <= i < |items| && t in Clocks(items[i], paths) :: t
    case Obj(fields) => set k, t | k in fields && t in FieldClocks(fields[k], Below(paths, k)) :: t
    case _ => {}
  }

  ghost function FieldClocks(value: Payload, below: set<Path>): set<int>
    decreases value, 1
  {
    if IsClock(value) then (if [] in below then {value.text.at} else {})
    else Clocks(value, below)
  }

  /** Every declared clock stays on the calendar when shifted. */
  ghost predicate Fits(clocks: set<int>, delta: int) {
    forall t <- clocks :: InRange(t + delta)
  }

  ghost function Motion(node: Payload, paths: set<Path>, delta: int): Option<Shifted> {
    if Fits(Clocks(node, paths), delta) then
      Some(Shifted(Moved(node, paths, delta), delta != 0 && Clocks(node, paths) != {}))
    else None
  }

  lemma {:induction false} MovedNowhere(node: Payload, paths: set<Path>, delta: int)
    requires delta == 0 || paths <= {[]}
    ensures Moved(node, paths, delta) == node
    ensures paths <= {[]} ==> Clocks(node, paths) == {}
    decreases node
  {
    match node
    case Arr(items) => forall i | 0 <= i < |items| { MovedNowhere(items[i], paths, delta); }
    case Obj(fields) =>
      forall k | k in fields
        ensures MovedField(fields[k], Below(paths, k), delta) == fields[k]
        ensures paths <= {[]} ==> FieldClocks(fields[k], Below(paths, k)) == {}
      {
        assert paths <= {[]} ==> Below(paths, k) == {};
        MovedNowhere(fields[k], Below(paths, k), delta);
      }
    case _ =>
  }

  lemma BelowOne(parts: Path, key: string)
    requires parts != []
    ensures Below({parts}, key) == if parts[0] == key then {parts[1..]} else {}
  {
  }

  /** Walking one path is the motion of that one path. */
  lemma {:induction false} ShiftAtIsMotion(node: Payload, parts: Path, delta: int)
    requires parts != []
    ensures ShiftAt(node, parts, delta) == Motion(node, {parts}, delta)
    decreases node, 1
  {
    match node
    case Arr(items) => ShiftItemsIsMotion(items, parts, delta);
    case Obj(_) => ShiftFieldIsMotion(node, parts, delta);
    case _ =>
  }

  lemma {:induction false} ShiftItemsIsMotion(items: seq<Payload>, parts: Path, delta: int)
    requires parts != []
    ensures ShiftItems(items, parts, delta) == Motion(Arr(items), {parts}, delta)
    decreases items, 0
  {
    var node: Payload, rest: Payload := Arr(items), if items == [] then Null else Arr(items[1..]);
    if items == [] {
      assert Moved(node, {parts}, delta).items == [];
      assert Clocks(node, {parts}) == {};
    } else {
      ShiftAtIsMotion(items[0], parts, delta);
      ShiftItemsIsMotion(items[1..], parts, delta);
      assert Clocks(node, {parts}) == Clocks(items[0], {parts}) + Clocks(rest, {parts});
      assert Moved(node, {parts}, delta).items == [Moved(items[0], {parts}, delta)] + Moved(rest, {parts}, delta).items;
    }
  }

  lemma {:induction false} ShiftFieldIsMotion(node: Payload, parts: Path, delta: int)
    requires parts != [] && node.Obj?
    ensures ShiftAt(node, parts, delta) == Motion(node, {parts}, delta)
    decreases node, 0
  {
    var fields, head, rest := node.fields, parts[0], parts[1..];
    forall k | k in fields && k != head
      ensures MovedField(fields[k], Below({parts}, k), delta) == fields[k]
        && FieldClocks(fields[k], Below({parts}, k)) == {}
    {
      BelowOne(parts, k);
      MovedNowhere(fields[k], {}, delta);
    }
    if head in fields {
      BelowOne(parts, head);
      assert Moved(node, {parts}, delta).fields == fields[head := MovedField(fields[head], {rest}, delta)];
      assert Clocks(node, {parts}) == FieldClocks(fields[head], {rest});
      if rest != [] {
        ShiftAtIsMotion(fields[head], rest, delta);
      } else {
        MovedNowhere(fields[head], {[]}, delta);
      }
      assert fields[head := fields[head]] == fields;
    } else {
      assert Moved(node, {parts}, delta).fields == fields;
      assert Clocks(node, {parts}) == {};
    }
  }
}
