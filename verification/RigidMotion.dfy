/** Rebasing is a rigid motion: in any order of the paths, every declared clock moves once and by
    the same offset, and shifts compose and undo like the offsets themselves. */
module RigidMotion {
  import opened Wrappers
  import opened Json
  import opened Rebase

  // ----- Paths one after another -----

  lemma BelowUnion(a: set<Path>, b: set<Path>, key: string)
    ensures Below(a + b, key) == Below(a, key) + Below(b, key)
    ensures a !! b ==> Below(a, key) !! Below(b, key)
  {
    forall rest | rest in Below(a, key) && rest in Below(b, key)
      ensures !(a !! b)
    {
      var p :| p in a && p != [] && p[0] == key && p[1..] == rest;
      var q :| q in b && q != [] && q[0] == key && q[1..] == rest;
      assert p == [key] + rest == q;
    }
  }

  lemma {:induction false} ClocksUnion(node: Payload, a: set<Path>, b: set<Path>)
    ensures Clocks(node, a + b) == Clocks(node, a) + Clocks(node, b)
    decreases node
  {
    match node
    case Arr(items) => forall i | 0 <= i < |items| { ClocksUnion(items[i], a, b); }
    case Obj(fields) =>
      forall k | k in fields
        ensures FieldClocks(fields[k], Below(a + b, k))
          == FieldClocks(fields[k], Below(a, k)) + FieldClocks(fields[k], Below(b, k))
      {
        BelowUnion(a, b, k);
        ClocksUnion(fields[k], Below(a, k), Below(b, k));
      }
    case _ =>
  }

  lemma SameUnions(before: seq<Payload>, after: seq<Payload>, paths: set<Path>)
    requires |before| == |after| && forall i ::
      0 <= i < |before| ==> Clocks(after[i], paths) == Clocks(before[i], paths)
    ensures Clocks(Arr(after), paths) == Clocks(Arr(before), paths)
  {
  }

  /** Moving along one set of paths leaves the clocks of any other where they were. */
  lemma {:induction false} OthersStay(node: Payload, a: set<Path>, b: set<Path>, delta: int)
    requires a !! b
    ensures Clocks(Moved(node, a, delta), b) == Clocks(node, b)
    decreases node
  {
    match node
    case Arr(items) =>
      var after := Moved(node, a, delta);
      forall i | 0 <= i < |items| ensures Clocks(after.items[i], b) == Clocks(items[i], b) {
        OthersStay(items[i], a, b, delta);
      }
      SameUnions(items, after.items, b);
    case Obj(fields) =>
      forall k | k in fields
        ensures FieldClocks(MovedField(fields[k], Below(a, k), delta), Below(b, k))
          == FieldClocks(fields[k], Below(b, k))
      {
        BelowUnion(a, b, k);
        OthersStay(fields[k], Below(a, k), Below(b, k), delta);
        MovedKind(fields[k], Below(a, k), delta);
      }
      SameFieldUnions(fields, Moved(node, a, delta).fields, b);
    case _ =>
  }

  lemma SameFieldUnions(before: map<string, Payload>, after: map<string, Payload>, paths: set<Path>)
    requires before.Keys == after.Keys
    requires forall k <- before :: FieldClocks(after[k], Below(paths, k)) == FieldClocks(before[k], Below(paths, k))
    ensures Clocks(Obj(after), paths) == Clocks(Obj(before), paths)
  {
  }

  /** Two disjoint sets of paths, one after the other, are one motion along both. */
  lemma {:induction false} MoveBoth(node: Payload, a: set<Path>, b: set<Path>, delta: int)
    requires a !! b
    ensures Moved(Moved(node, a, delta), b, delta) == Moved(node, a + b, delta)
    decreases node
  {
    match node
    case Arr(items) =>
      forall i | 0 <= i < |items| { MoveBoth(items[i], a, b, delta); }
      assert Moved(Moved(node, a, delta), b, delta).items == Moved(node, a + b, delta).items;
    case Obj(fields) =>
      forall k | k in fields
        ensures MovedField(MovedField(fields[k], Below(a, k), delta), Below(b, k), delta)
          == MovedField(fields[k], Below(a + b, k), delta)
      {
        BelowUnion(a, b, k);
        MoveBoth(fields[k], Below(a, k), Below(b, k), delta);
        MovedKind(fields[k], Below(a, k), delta);
      }
      assert Moved(Moved(node, a, delta), b, delta).fields == Moved(node, a + b, delta).fields;
    case _ =>
  }

  lemma MovedKind(node: Payload, paths: set<Path>, delta: int)
    ensures IsClock(Moved(node, paths, delta)) <==> IsClock(node)
    ensures IsClock(node) ==> Moved(node, paths, delta) == node
  {
  }

  lemma NoMotion(payload: Payload, delta: int)
    ensures Motion(payload, {}, delta) == Some(Shifted(payload, false))
  {
    MovedNowhere(payload, {}, delta);
  }

  /** One more path is one more step of the same motion, or the overflow that ends it. */
  lemma OneMorePath(payload: Payload, done: set<Path>, parts: Path, delta: int)
    requires parts != [] && parts !in done && Motion(payload, done, delta).Some?
    ensures var before := Motion(payload, done, delta).value;
      var step := ShiftAt(before.node, parts, delta);
      Motion(payload, done + {parts}, delta) ==
        if step.None? then None else Some(Shifted(step.value.node, before.moved || step.value.moved))
  {
    var node := Motion(payload, done, delta).value.node;
    ShiftAtIsMotion(node, parts, delta);
    OthersStay(payload, done, {parts}, delta);
    ClocksUnion(payload, done, {parts});
    MoveBoth(payload, done, {parts}, delta);
  }

  lemma OverflowStays(payload: Payload, some: set<Path>, others: set<Path>, delta: int)
    requires Motion(payload, some, delta).None?
    ensures Motion(payload, some + others, delta).None?
  {
    ClocksUnion(payload, some, others);
  }

  /** Every path of a tool in turn, in whatever order a set is listed: the one motion along all of them. */
  method ShiftPaths(payload: Payload, paths: set<Path>, delta: int) returns (result: Option<Shifted>)
    requires [] !in paths
    ensures result == Motion(payload, paths, delta)
  {
    var todo, node, moved := paths, payload, false;
    ghost var done: set<Path> := {};
    NoMotion(payload, delta);
    while todo != {}
      invariant todo !! done && todo + done == paths
      invariant Some(Shifted(node, moved)) == Motion(payload, done, delta)
    {
      var parts :| parts in todo;
      OneMorePath(payload, done, parts, delta);
      var step := ShiftAt(node, parts, delta);
      if step.None? {
        assert done + {parts} + (todo - {parts}) == paths;
        OverflowStays(payload, done + {parts}, todo - {parts}, delta);
        return None;
      }
      node, moved := step.value.node, moved || step.value.moved;
      todo, done := todo - {parts}, done + {parts};
    }
    assert done == paths;
    result := Some(Shifted(node, moved));
  }

  // ----- Shifts after one another -----

  lemma {:induction false} Compose(node: Payload, paths: set<Path>, first: int, second: int)
    ensures Moved(Moved(node, paths, first), paths, second) == Moved(node, paths, first + second)
    decreases node
  {
    match node
    case Arr(items) =>
      forall i | 0 <= i < |items| { Compose(items[i], paths, first, second); }
      assert Moved(Moved(node, paths, first), paths, second).items == Moved(node, paths, first + second).items;
    case Obj(fields) =>
      forall k | k in fields
        ensures MovedField(MovedField(fields[k], Below(paths, k), first), Below(paths, k), second)
          == MovedField(fields[k], Below(paths, k), first + second)
      {
        Compose(fields[k], Below(paths, k), first, second);
        MovedKind(fields[k], Below(paths, k), first);
      }
      assert Moved(Moved(node, paths, first), paths, second).fields == Moved(node, paths, first + second).fields;
    case _ =>
  }

  /** Every clock of the first set is in the second one, moved. */
  ghost predicate MovedBy(before: set<int>, after: set<int>, delta: int) {
    forall t <- before :: t + delta in after
  }

  lemma {:induction false} ClocksMove(node: Payload, paths: set<Path>, delta: int)
    ensures MovedBy(Clocks(node, paths), Clocks(Moved(node, paths, delta), paths), delta)
    decreases node, 1
  {
    if node.Arr? {
      var after := Moved(node, paths, delta);
      forall i | 0 <= i < |node.items|
        ensures MovedBy(Clocks(node.items[i], paths), Clocks(after.items[i], paths), delta) {
        ClocksMove(node.items[i], paths, delta);
      }
      MovedUnions(node.items, after.items, paths, delta);
    } else if node.Obj? {
      var after := Moved(node, paths, delta);
      forall k | k in node.fields
        ensures MovedBy(FieldClocks(node.fields[k], Below(paths, k)), FieldClocks(after.fields[k], Below(paths, k)),
          delta)
      {
        FieldClocksMove(node.fields[k], Below(paths, k), delta);
      }
      MovedFieldUnions(node.fields, after.fields, paths, delta);
    }
  }

  lemma {:induction false} FieldClocksMove(value: Payload, below: set<Path>, delta: int)
    ensures MovedBy(FieldClocks(value, below), FieldClocks(MovedField(value, below, delta), below), delta)
    decreases value, 2
  {
    ClocksMove(value, below, delta);
    MovedKind(value, below, delta);
  }

  lemma MovedUnions(before: seq<Payload>, after: seq<Payload>, paths: set<Path>, delta: int)
    requires |before| == |after|
    requires forall i :: 0 <= i < |before| ==> MovedBy(Clocks(before[i], paths), Clocks(after[i], paths), delta)
    ensures MovedBy(Clocks(Arr(before), paths), Clocks(Arr(after), paths), delta)
  {
    forall t | t in Clocks(Arr(before), paths) ensures t + delta in Clocks(Arr(after), paths) {
      var i :| 0 <= i < |before| && t in Clocks(before[i], paths);
      assert t + delta in Clocks(after[i], paths);
    }
  }

  lemma MovedFieldUnions(before: map<string, Payload>, after: map<string, Payload>, paths: set<Path>, delta: int)
    requires before.Keys == after.Keys
    requires forall k <- before ::
      MovedBy(FieldClocks(before[k], Below(paths, k)), FieldClocks(after[k], Below(paths, k)), delta)
    ensures MovedBy(Clocks(Obj(before), paths), Clocks(Obj(after), paths), delta)
  {
    forall t | t in Clocks(Obj(before), paths) ensures t + delta in Clocks(Obj(after), paths) {
      var k :| k in before && t in FieldClocks(before[k], Below(paths, k));
      assert k in after && t + delta in FieldClocks(after[k], Below(paths, k));
    }
  }

  /** Shifting by `first` and then by `second` is shifting by their sum, whenever neither shift
      leaves the calendar; in particular a shift undone restores the payload. */
  lemma ShiftsAddUp(node: Payload, paths: set<Path>, first: int, second: int)
    requires Motion(node, paths, first).Some?
    requires Motion(Motion(node, paths, first).value.node, paths, second).Some?
    ensures Motion(node, paths, first + second).Some?
    ensures Motion(Motion(node, paths, first).value.node, paths, second).value.node
      == Motion(node, paths, first + second).value.node
    ensures second == -first ==> Motion(Motion(node, paths, first).value.node, paths, second).value.node == node
  {
    Compose(node, paths, first, second);
    ClocksMove(node, paths, first);
    forall t | t in Clocks(node, paths) ensures InRange(t + (first + second)) {
      assert t + first in Clocks(Moved(node, paths, first), paths);
    }
    if second == -first {
      MovedNowhere(node, paths, 0);
    }
  }

  // ----- Leaf by leaf -----

  datatype Hop = Field(name: string) | Index(i: nat)

  function Leaf(node: Payload, address: seq<Hop>): Option<Payload> {
    if address == [] then Some(node)
    else
      match address[0]
      case Field(name) => if node.Obj? && name in node.fields then Leaf(node.fields[name], address[1..]) else None
      case Index(i) => if node.Arr? && i < |node.items| then Leaf(node.items[i], address[1..]) else None
  }

  function KeysOf(address: seq<Hop>): Path {
    if address == [] then []
    else (if address[0].Field? then [address[0].name] else []) + KeysOf(address[1..])
  }

  /** An address the table declares: its keys are a declared path and it ends at the last of them. */
  predicate Declared(address: seq<Hop>, paths: set<Path>) {
    address != [] && address[|address| - 1].Field? && KeysOf(address) in paths
  }

  lemma DeclaredBelow(address: seq<Hop>, paths: set<Path>)
    requires address != []
    ensures address[0].Field? && |address| > 1 ==>
      (Declared(address, paths) <==> Declared(address[1..], Below(paths, address[0].name)))
    ensures address[0].Field? && |address| == 1 ==> (Declared(address, paths) <==> [] in Below(paths, address[0].name))
    ensures address[0].Index? ==> (Declared(address, paths) <==> Declared(address[1..], paths))
  {
    if address[0].Field? {
      var key, rest := address[0].name, KeysOf(address[1..]);
      assert KeysOf(address) == [key] + rest;
      if rest in Below(paths, key) {
        var p :| p in paths && p != [] && p[0] == key && p[1..] == rest;
        assert p == [key] + rest;
      }
      if [key] + rest in paths {
        assert ([key] + rest)[1..] == rest;
      }
    } else {
      assert KeysOf(address) == KeysOf(address[1..]);
    }
  }

  /** Each leaf on its own: a declared clock moves by exactly `delta`, every other leaf is unchanged,
      and the payload keeps its shape. */
  lemma {:induction false} EachLeaf(node: Payload, address: seq<Hop>, paths: set<Path>, delta: int)
    ensures Leaf(node, address).Some? <==> Leaf(Moved(node, paths, delta), address).Some?
    ensures Leaf(node, address).Some? ==>
      var before, after := Leaf(node, address).value, Leaf(Moved(node, paths, delta), address).value;
      if IsClock(before) then after == Str(Instant(before.text.at + if Declared(address, paths) then delta else 0))
      else if before.Arr? || before.Obj? then after.Arr? == before.Arr? && after.Obj? == before.Obj?
      else after == before
    decreases |address|
  {
    if address != [] {
      var rest := address[1..];
      DeclaredBelow(address, paths);
      match address[0]
      case Field(name) =>
        if node.Obj? && name in node.fields {
          EachLeaf(node.fields[name], rest, Below(paths, name), delta);
          assert Moved(node, paths, delta).fields[name] == MovedField(node.fields[name], Below(paths, name), delta);
        }
      case Index(i) =>
        if node.Arr? && i < |node.items| {
          EachLeaf(node.items[i], rest, paths, delta);
        }
    }
  }

  /** Differences between declared clocks are conserved. */
  lemma ClockDifferences(node: Payload, a: seq<Hop>, b: seq<Hop>, paths: set<Path>, delta: int)
    requires Declared(a, paths) && Leaf(node, a).Some? && IsClock(Leaf(node, a).value)
    requires Declared(b, paths) && Leaf(node, b).Some? && IsClock(Leaf(node, b).value)
    ensures var after := Moved(node, paths, delta);
      && Leaf(after, a).Some? && Leaf(after, b).Some?
      && IsClock(Leaf(after, a).value) && IsClock(Leaf(after, b).value)
      && Leaf(after, a).value.text.at - Leaf(after, b).value.text.at
        == Leaf(node, a).value.text.at - Leaf(node, b).value.text.at
  {
    EachLeaf(node, a, paths, delta);
    EachLeaf(node, b, paths, delta);
  }
}
