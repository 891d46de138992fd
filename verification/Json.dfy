/** JSON values, over whatever a string leaf carries: plain text for comparing, or a time
    stamp already read as an instant for replaying. */
module Json {
  import opened Wrappers

  datatype Json<+T> =
    | Null
    | Bool(on: bool)
    | Num(n: real)
    | Str(text: T)
    | Arr(items: seq<Json<T>>)
    | Obj(fields: map<string, Json<T>>)

  /** Object keys from the root down, with no list markers: the form every policy is written in. */
  type Path = seq<string>

  ghost function MaxOf(s: set<nat>): (m: nat)
    ensures forall x <- s :: x <= m
    ensures s != {} ==> m in s
    ensures s == {} ==> m == 0
  {
    if s == {} then 0
    else
      var x :| x in s;
      var rest := MaxOf(s - {x});
      assert s == {x} + (s - {x});
      if rest > x then rest else x
  }

  ghost function Height<T(!new)>(j: Json<T>): (h: nat)
    ensures j.Arr? ==> forall i :: 0 <= i < |j.items| ==> Height(j.items[i]) < h
    ensures j.Obj? ==> forall k <- j.fields :: Height(j.fields[k]) < h
    decreases j
  {
    match j
    case Arr(items) =>
      var heights := set i | 0 <= i < |items| :: Height(items[i]);
      assert forall i :: 0 <= i < |items| ==> Height(items[i]) in heights;
      1 + MaxOf(heights)
    case Obj(fields) =>
      var heights := set k | k in fields :: Height(fields[k]);
      assert forall k <- fields :: Height(fields[k]) in heights;
      1 + MaxOf(heights)
    case _ => 0
  }

  /** The value at a key path, through objects only. */
  function At<T>(j: Json<T>, path: Path): Option<Json<T>> {
    if path == [] then Some(j)
    else if j.Obj? && path[0] in j.fields then At(j.fields[path[0]], path[1..])
    else None
  }
}
