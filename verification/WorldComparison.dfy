/** The walk of evals/fixture_drift.py over a recorded and a live payload: what it reports, and what its
    policies let pass. */
module WorldComparison {
  import opened Json
  import Texts

  type Value = Json<string>

  // ----- Policies -----

  datatype Rule = MintedId | FiringReading | CountFloor | WindowCount | WindowReading | ThresholdSide | HeldCount

  datatype Movement = Movement(rule: Rule, threshold: string)

  /** What a comparison forgives: clocks, free text, cut nodes, and fields compared by a rule. */
  datatype Policy = Policy(
    volatile: set<Path>, unbounded: set<Path>, shapeOnly: set<Path>, honest: map<Path, Movement>)
  {
    /** The rules that are in force: none at a volatile path. */
    function Moves(): map<Path, Movement> {
      map path | path in honest && path !in volatile :: honest[path]
    }

    function Relaxed(): set<Path> {
      volatile + unbounded + shapeOnly + Moves().Keys
    }

    predicate HasMove(path: Path, rule: Rule) {
      path in Moves() && Moves()[path].rule == rule
    }
  }

  const NoRelaxation := Policy({}, {}, {}, map[])

  // ----- Reports -----

  datatype Step = Key(name: string) | Rows

  datatype Kind =
    | CannedOnlyField | LiveOnlyField | TypeDiffers | ValueDiffers
    | NoLiveRows | NotLiveReachable
    | MintedRowMissing | MintedRowsBelowFloor | MintedIdDiffers
    | SignClass | BelowFloor | ThresholdSideDiffers

  datatype Drift = Drift(path: seq<Step>, kind: Kind)

  /** The keys of a path, without the steps into rows. */
  function PolicyPath(at: seq<Step>): Path {
    if at == [] then []
    else PolicyPath(at[..|at| - 1]) + if at[|at| - 1].Key? then [at[|at| - 1].name] else []
  }

  // ----- JSON as the walk reads it -----

  datatype JsonType = NullType | BooleanType | NumberType | StringType | ObjectType | ArrayType

  function TypeOf(v: Value): JsonType {
    match v
    case Null => NullType
    case Bool(_) => BooleanType
    case Num(_) => NumberType
    case Str(_) => StringType
    case Arr(_) => ArrayType
    case Obj(_) => ObjectType
  }

  /** Python's `==` on parsed JSON, to which `True` is `1`. */
  predicate Same(a: Value, b: Value)
    decreases a
  {
    match (a, b)
    case (Bool(x), Num(y)) => y == if x then 1.0 else 0.0
    case (Num(x), Bool(y)) => x == if y then 1.0 else 0.0
    case (Arr(xs), Arr(ys)) => |xs| == |ys| && forall i :: 0 <= i < |xs| ==> Same(xs[i], ys[i])
    case (Obj(xs), Obj(ys)) => xs.Keys == ys.Keys && forall k <- xs :: k in ys && Same(xs[k], ys[k])
    case _ => a == b
  }

  predicate DiffersInType(canned: Value, live: Value) {
    !canned.Null? && !live.Null? && TypeOf(canned) != TypeOf(live)
  }

  function Flatten(v: Value): seq<Value>
    decreases v
  {
    if v.Arr? then FlattenAll(v.items) else [v]
  }

  function FlattenAll(vs: seq<Value>): seq<Value>
    decreases vs
  {
    if vs == [] then [] else Flatten(vs[0]) + FlattenAll(vs[1..])
  }

  function NonNull(vs: seq<Value>): seq<Value> {
    if vs == [] then []
    else (if vs[0].Null? then [] else [vs[0]]) + NonNull(vs[1..])
  }

  function Leaves(v: Value): seq<Value> {
    NonNull(Flatten(v))
  }

  function TypesOf(vs: seq<Value>): set<JsonType> {
    set v <- vs :: TypeOf(v)
  }

  predicate HasObjects(vs: seq<Value>) {
    exists v <- vs :: v.Obj?
  }

  function ValuesOf(rows: seq<Value>, key: string): seq<Value> {
    if rows == [] then []
    else (if rows[0].Obj? && key in rows[0].fields then [rows[0].fields[key]] else []) + ValuesOf(rows[1..], key)
  }

  function KeysOf(rows: seq<Value>): set<string> {
    if rows == [] then {} else (if rows[0].Obj? then rows[0].fields.Keys else {}) + KeysOf(rows[1..])
  }

  /** The objects of a list folded into one: under each key, the values it has in any of them. */
  function Merged(rows: seq<Value>): Value {
    Obj(map k | k in KeysOf(rows) :: Arr(ValuesOf(rows, k)))
  }

  function Sign(x: real): int {
    if x > 0.0 then 1 else if x < 0.0 then -1 else 0
  }

  predicate AtOrOver(v: Value, threshold: real) {
    v.Num? && v.n >= threshold
  }

  predicate IsHex(c: char) {
    '0' <= c <= '9' || 'a' <= c <= 'f' || 'A' <= c <= 'F'
  }

  function WithoutHyphens(s: string): string {
    if s == [] then [] else (if s[0] == '-' then [] else [s[0]]) + WithoutHyphens(s[1..])
  }

  /** A version-4 UUID (section 5.4 of RFC 9562): 32 hex digits, version nibble 4, variant 10. */
  predicate IsRandomUuid(s: string) {
    var hex := WithoutHyphens(s);
    |hex| == 32 && (forall c <- hex :: IsHex(c)) && hex[12] == '4' && hex[16] in "89abAB"
  }

  predicate IsMinted(v: Value) {
    v.Str? && IsRandomUuid(v.text)
  }

  /** What is left to tell a row by once its relaxed fields are dropped. */
  function Identity(row: Value, prefix: Path, relaxed: set<Path>): Value
    decreases row
  {
    if row.Obj? then
      Obj(map k | k in row.fields && prefix + [k] !in relaxed :: Identity(row.fields[k], prefix + [k], relaxed))
    else row
  }

  predicate MintedRow(row: Value) {
    row.Obj? && "id" in row.fields && IsMinted(row.fields["id"])
  }

  function MintedIdentities(rows: seq<Value>, prefix: Path, relaxed: set<Path>): multiset<Value> {
    if rows == [] then multiset{}
    else
      (if MintedRow(rows[0]) then multiset{Identity(rows[0], prefix, relaxed)} else multiset{})
      + MintedIdentities(rows[1..], prefix, relaxed)
  }

  // ----- What each check reports -----

  function ShapeDrifts(canned: Value, live: Value, at: seq<Step>): seq<Drift> {
    var ct, lt := TypesOf(Leaves(canned)), TypesOf(Leaves(live));
    if ct != {} && lt != {} && ct * lt == {} then [Drift(at, TypeDiffers)] else []
  }

  predicate Reachable(value: Value, domain: seq<Value>) {
    exists v <- domain :: TypeOf(v) == TypeOf(value) && Same(v, value)
  }

  function MemberDrift(value: Value, domain: seq<Value>, at: seq<Step>): seq<Drift> {
    if domain != [] && TypeOf(value) !in TypesOf(domain) then [Drift(at, TypeDiffers)]
    else if !Reachable(value, domain) then [Drift(at, NotLiveReachable)]
    else []
  }

  function MemberDrifts(values: seq<Value>, domain: seq<Value>, at: seq<Step>): seq<Drift> {
    if values == [] then []
    else MemberDrifts(values[..|values| - 1], domain, at) + MemberDrift(values[|values| - 1], domain, at)
  }

  function MintedTexts(values: seq<Value>): set<string> {
    set v <- values | IsMinted(v) :: v.text
  }

  function Pinned(values: seq<Value>): seq<Value> {
    if values == [] then []
    else (if IsMinted(values[0]) then [] else [values[0]]) + Pinned(values[1..])
  }

  predicate TypesMoved(values: seq<Value>, domain: seq<Value>) {
    values != [] && domain != [] && TypesOf(values) != TypesOf(domain)
  }

  /** No live number is on the value's side of zero, though there are live numbers. */
  predicate SignLost(value: Value, domain: seq<Value>) {
    value.Num? && (exists v <- domain :: v.Num?) && forall v <- domain :: v.Num? ==> Sign(v.n) != Sign(value.n)
  }

  /** Every live number is below the value, and there are live numbers. */
  predicate UnderFloor(value: Value, domain: seq<Value>) {
    value.Num? && (exists v <- domain :: v.Num?) && forall v <- domain :: v.Num? ==> v.n < value.n
  }

  function SignDrift(value: Value, domain: seq<Value>, at: seq<Step>): seq<Drift> {
    if SignLost(value, domain) then [Drift(at, SignClass)] else []
  }

  function SignDrifts(values: seq<Value>, domain: seq<Value>, at: seq<Step>): seq<Drift> {
    if values == [] then []
    else SignDrifts(values[..|values| - 1], domain, at) + SignDrift(values[|values| - 1], domain, at)
  }

  function FloorDrift(value: Value, domain: seq<Value>, at: seq<Step>): seq<Drift> {
    if UnderFloor(value, domain) then [Drift(at, BelowFloor)] else []
  }

  function FloorDrifts(values: seq<Value>, domain: seq<Value>, at: seq<Step>): seq<Drift> {
    if values == [] then []
    else FloorDrifts(values[..|values| - 1], domain, at) + FloorDrift(values[|values| - 1], domain, at)
  }

  function MovedLeafDrifts(rule: Rule, values: seq<Value>, domain: seq<Value>, at: seq<Step>): seq<Drift> {
    if rule.MintedId? then
      (if |MintedTexts(domain)| < |MintedTexts(values)| then [Drift(at, MintedRowsBelowFloor)] else [])
      + MemberDrifts(Pinned(values), domain, at)
    else if TypesMoved(values, domain) then [Drift(at, TypeDiffers)]
    else if rule.WindowCount? || rule.HeldCount? then SignDrifts(values, domain, at)
    else if rule.CountFloor? then FloorDrifts(values, domain, at)
    else []
  }

  function LeafDrifts(p: Policy, canned: Value, live: Value, at: seq<Step>): seq<Drift> {
    var path := PolicyPath(at);
    if path in p.volatile || path in p.unbounded then []
    else if path in p.Moves() then MovedLeafDrifts(p.Moves()[path].rule, Leaves(canned), Leaves(live), at)
    else MemberDrifts(Leaves(canned), Leaves(live), at)
  }

  function MovedScalarDrifts(rule: Rule, canned: Value, live: Value, at: seq<Step>): seq<Drift> {
    if rule.MintedId? && IsMinted(canned) then
      if IsMinted(live) then [] else [Drift(at, MintedIdDiffers)]
    else if DiffersInType(canned, live) then [Drift(at, TypeDiffers)]
    else if rule.FiringReading? || rule.WindowReading? then []
    else if (rule.WindowCount? || rule.HeldCount?) && canned.Num? && live.Num? then
      if Sign(canned.n) != Sign(live.n) then [Drift(at, SignClass)] else []
    else if rule.CountFloor? && canned.Num? && live.Num? then
      if live.n < canned.n then [Drift(at, BelowFloor)] else []
    else if !Same(canned, live) then [Drift(at, ValueDiffers)]
    else []
  }

  function ScalarDrifts(p: Policy, canned: Value, live: Value, at: seq<Step>, inList: bool): seq<Drift> {
    var path := PolicyPath(at);
    if path in p.volatile then
      if DiffersInType(canned, live) then [Drift(at, TypeDiffers)] else []
    else if path in p.Moves() && !inList then MovedScalarDrifts(p.Moves()[path].rule, canned, live, at)
    else if DiffersInType(canned, live) && !inList then [Drift(at, TypeDiffers)]
    else if inList then LeafDrifts(p, canned, live, at)
    else if !Same(canned, live) then [Drift(at, ValueDiffers)]
    else []
  }

  function Field(parent: map<string, Value>, key: string): Value {
    if key in parent then parent[key] else Null
  }

  function ThresholdDrifts(
      threshold: string, key: string, cannedParent: map<string, Value>, liveParent: map<string, Value>, at: seq<Step>)
    : seq<Drift>
    requires key in cannedParent && key in liveParent
  {
    var canned, live := cannedParent[key], liveParent[key];
    var cannedLimit, liveLimit := Field(cannedParent, threshold), Field(liveParent, threshold);
    if DiffersInType(canned, live) then [Drift(at, TypeDiffers)]
    else if !cannedLimit.Num? || !liveLimit.Num? then
      if Same(canned, live) then [] else [Drift(at, ValueDiffers)]
    else if AtOrOver(canned, cannedLimit.n) != AtOrOver(live, liveLimit.n) then [Drift(at, ThresholdSideDiffers)]
    else []
  }

  function FieldDrifts(keys: seq<string>, kind: Kind, at: seq<Step>): seq<Drift> {
    seq(|keys|, i requires 0 <= i < |keys| => Drift(at + [Key(keys[i])], kind))
  }

  /** Recorded identities the live rows hold too few of, each reported once. */
  function MintedDrifts(p: Policy, canned: seq<Value>, live: seq<Value>, at: seq<Step>): seq<Drift> {
    var prefix := PolicyPath(at);
    if p.HasMove(prefix + ["id"], MintedId) then
      var missing := MintedIdentities(canned, prefix, p.Relaxed()) - MintedIdentities(live, prefix, p.Relaxed());
      seq(|Distinct(missing)|, _ => Drift(at + [Rows], MintedRowMissing))
    else []
  }

  function Distinct(m: multiset<Value>): set<Value> {
    set v <- m :: v
  }

  // ----- The whole walk, as a value -----

  ghost function Walked(p: Policy, canned: Value, live: Value, at: seq<Step>, inList: bool): seq<Drift>
    decreases Height(canned), if canned.Arr? then 4 else 2, 0
  {
    if at != [] && PolicyPath(at) in p.shapeOnly then ShapeDrifts(canned, live, at)
    else if canned.Obj? && live.Obj? then WalkedObjects(p, canned, live, at, inList)
    else if canned.Arr? && live.Arr? then WalkedLists(p, canned.items, live.items, at)
    else ScalarDrifts(p, canned, live, at, inList)
  }

  ghost function WalkedObjects(p: Policy, canned: Value, live: Value, at: seq<Step>, inList: bool): seq<Drift>
    requires canned.Obj? && live.Obj?
    decreases Height(canned), 1, 0
  {
    FieldDrifts(Texts.Sorted(canned.fields.Keys - live.fields.Keys), CannedOnlyField, at)
    + FieldDrifts(Texts.Sorted(live.fields.Keys - canned.fields.Keys), LiveOnlyField, at)
    + WalkedFields(p, canned.fields, live.fields, Texts.Sorted(canned.fields.Keys * live.fields.Keys), at, inList,
      Height(canned))
  }

  ghost function WalkedLists(p: Policy, canned: seq<Value>, live: seq<Value>, at: seq<Step>): seq<Drift>
    decreases Height(Arr(canned)), 3, 0
  {
    if canned != [] && live == [] then
      if PolicyPath(at) in p.volatile then [] else [Drift(at + [Rows], NoLiveRows)]
    else if HasObjects(canned) || HasObjects(live) then
      MergedIsNoTaller(canned);
      MintedDrifts(p, canned, live, at) + Walked(p, Merged(canned), Merged(live), at + [Rows], true)
    else LeafDrifts(p, Arr(canned), Arr(live), at + [Rows])
  }

  ghost function WalkedFields(
      p: Policy, canned: map<string, Value>, live: map<string, Value>, keys: seq<string>, at: seq<Step>, inList: bool,
      bound: nat)
    : seq<Drift>
    requires forall k <- keys :: k in canned && k in live && Height(canned[k]) < bound
    decreases bound, 0, |keys|
  {
    if keys == [] then []
    else
      var init, key := keys[..|keys| - 1], keys[|keys| - 1];
      WalkedFields(p, canned, live, init, at, inList, bound) + WalkedField(p, canned, live, key, at, inList)
  }

  ghost function WalkedField(
      p: Policy, canned: map<string, Value>, live: map<string, Value>, key: string, at: seq<Step>, inList: bool)
    : seq<Drift>
    requires key in canned && key in live
    decreases Height(canned[key]), 5, 0
  {
    var child := at + [Key(key)];
    if p.HasMove(PolicyPath(child), ThresholdSide) && !inList then
      ThresholdDrifts(p.Moves()[PolicyPath(child)].threshold, key, canned, live, child)
    else Walked(p, canned[key], live[key], child, inList)
  }

  lemma ValuesAreFields(rows: seq<Value>, key: string, v: Value)
    requires v in ValuesOf(rows, key)
    ensures exists row <- rows :: row.Obj? && key in row.fields && row.fields[key] == v
  {
    if !(rows[0].Obj? && key in rows[0].fields && rows[0].fields[key] == v) {
      ValuesAreFields(rows[1..], key, v);
    }
  }

  lemma MergedIsNoTaller(rows: seq<Value>)
    ensures Height(Merged(rows)) <= Height(Arr(rows))
  {
    forall k | k in KeysOf(rows) ensures Height(Arr(ValuesOf(rows, k))) < Height(Arr(rows)) {
      ColumnIsShorter(rows, k);
    }
    ObjHeight(Merged(rows).fields, Height(Arr(rows)));
  }

  lemma ColumnIsShorter(rows: seq<Value>, key: string)
    requires key in KeysOf(rows)
    ensures Height(Arr(ValuesOf(rows, key))) < Height(Arr(rows))
  {
    KeyHasARow(rows, key);
    var vs := ValuesOf(rows, key);
    forall i | 0 <= i < |vs| ensures Height(vs[i]) < Height(Arr(rows)) - 1 {
      ValuesAreFields(rows, key, vs[i]);
      var row :| row in rows && row.Obj? && key in row.fields && row.fields[key] == vs[i];
      RowIsShorter(rows, row);
    }
    ArrHeight(vs, Height(Arr(rows)) - 1);
  }

  lemma RowIsShorter(rows: seq<Value>, row: Value)
    requires row in rows
    ensures Height(row) < Height(Arr(rows))
  {
    var whole: Value := Arr(rows);
    var j :| 0 <= j < |rows| && rows[j] == row;
    assert Height(whole.items[j]) < Height(whole);
  }

  lemma {:induction false} KeyHasARow(rows: seq<Value>, key: string)
    ensures key in KeysOf(rows) <==> exists row <- rows :: row.Obj? && key in row.fields
    ensures key in KeysOf(rows) <==> ValuesOf(rows, key) != []
  {
    if rows != [] {
      KeyHasARow(rows[1..], key);
    }
  }

  lemma ArrHeight(vs: seq<Value>, bound: int)
    requires vs != [] && forall i :: 0 <= i < |vs| ==> Height(vs[i]) < bound
    ensures Height(Arr(vs)) <= bound
  {
    var heights := set i | 0 <= i < |vs| :: Height(vs[i]);
    assert Height(vs[0]) in heights;
    assert Height(Arr(vs)) == 1 + MaxOf(heights);
  }

  lemma ObjHeight(fields: map<string, Value>, bound: nat)
    requires bound > 0 && forall k <- fields :: Height(fields[k]) < bound
    ensures Height(Obj(fields)) <= bound
  {
  }
}
