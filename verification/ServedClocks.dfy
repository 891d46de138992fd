/** What a re-based reply is, block by block and leaf by leaf: each clock the tool declares stands exactly the
    offset later, nothing else differs, and a reply is refused only for a clock that leaves the calendar. */
module ServedClocks {
  import opened Wrappers
  import opened Json
  import opened Rebase
  import opened RigidMotion
  import opened Recorder

  // ----- The clocks of a payload, by their addresses -----

  /** A leaf of a payload, at an address the tool declares, that reads as an instant. */
  ghost predicate ClockAt(paths: set<Path>, payload: Payload, address: seq<Hop>, at: int) {
    Declared(address, paths) && Leaf(payload, address) == Some(Str(Instant(at)))
  }

  lemma Downward(hop: Hop, rest: seq<Hop>)
    ensures ([hop] + rest)[0] == hop && ([hop] + rest)[1..] == rest
  {
  }

  lemma ClockBelow(paths: set<Path>, node: Payload, key: string, rest: seq<Hop>, at: int)
    requires node.Obj? && key in node.fields && rest != [] && ClockAt(Below(paths, key), node.fields[key], rest, at)
    ensures ClockAt(paths, node, [Field(key)] + rest, at)
  {
    Downward(Field(key), rest);
    DeclaredBelow([Field(key)] + rest, paths);
  }

  lemma {:induction false} ClockHasAnAddress(node: Payload, paths: set<Path>, at: int) returns (address: seq<Hop>)
    requires at in Clocks(node, paths)
    ensures ClockAt(paths, node, address, at)
    decreases node
  {
    if node.Arr? {
      var i: nat :| i < |node.items| && at in Clocks(node.items[i], paths);
      var rest := ClockHasAnAddress(node.items[i], paths, at);
      address := [Index(i)] + rest;
      Downward(Index(i), rest);
      DeclaredBelow(address, paths);
    } else {
      var k :| k in node.fields && at in FieldClocks(node.fields[k], Below(paths, k));
      if IsClock(node.fields[k]) {
        address := [Field(k)];
        DeclaredBelow(address, paths);
      } else {
        var rest := ClockHasAnAddress(node.fields[k], Below(paths, k), at);
        address := [Field(k)] + rest;
        ClockBelow(paths, node, k, rest, at);
      }
    }
  }

  lemma {:induction false} AddressIsAClock(node: Payload, paths: set<Path>, address: seq<Hop>, at: int)
    requires ClockAt(paths, node, address, at)
    ensures at in Clocks(node, paths)
    decreases |address|
  {
    DeclaredBelow(address, paths);
    match address[0]
    case Index(i) => AddressIsAClock(node.items[i], paths, address[1..], at);
    case Field(k) =>
      if |address| == 1 {
        assert Leaf(node.fields[k], address[1..]) == Some(node.fields[k]) && [] in Below(paths, k);
        assert FieldClocks(node.fields[k], Below(paths, k)) == {at};
      } else {
        AddressIsAClock(node.fields[k], Below(paths, k), address[1..], at);
        assert at in FieldClocks(node.fields[k], Below(paths, k));
      }
  }

  // ----- One block, and a whole reply -----

  /** A clock that would leave the calendar. */
  ghost predicate Overflows(paths: set<Path>, payload: Payload, address: seq<Hop>, delta: int) {
    exists at :: ClockAt(paths, payload, address, at) && !InRange(at + delta)
  }

  /** Both payloads have a leaf there or neither does; a declared clock stands `delta` later, any other clock, word,
      number, boolean or null is as it was, and a list or an object is still one. */
  ghost predicate LeafShifted(
      paths: set<Path>, before: Payload, after: Payload, address: seq<Hop>, delta: int) {
    match (Leaf(before, address), Leaf(after, address))
    case (Some(Str(Instant(at))), Some(leaf)) =>
      leaf == Str(Instant(at + if Declared(address, paths) then delta else 0))
    case (Some(Arr(_)), Some(leaf)) => leaf.Arr?
    case (Some(Obj(_)), Some(leaf)) => leaf.Obj?
    case (Some(leaf), Some(other)) => other == leaf
    case (None, None) => true
    case _ => false
  }

  ghost predicate LeavesShifted(paths: set<Path>, before: Payload, after: Payload, delta: int) {
    forall address: seq<Hop> :: LeafShifted(paths, before, after, address, delta)
  }

  ghost predicate HasClock(paths: set<Path>, payload: Payload) {
    exists address: seq<Hop>, at: int :: ClockAt(paths, payload, address, at)
  }

  /** Only an object's clocks move, and a block none of whose clocks moves keeps its bytes. */
  ghost predicate BlockShifted(paths: set<Path>, before: Block, after: Block, delta: int) {
    if before.Opaque? || !before.payload.Obj? then after == before
    else
      && after.Document? && LeavesShifted(paths, before.payload, after.payload, delta)
      && if delta != 0 && HasClock(paths, before.payload) then !after.verbatim else after == before
  }

  ghost predicate BlockOverflows(paths: set<Path>, block: Block, delta: int) {
    block.Document? && block.payload.Obj? && exists address: seq<Hop> :: Overflows(paths, block.payload, address, delta)
  }

  /** A reply whose every block is shifted, one for one. */
  ghost predicate Shifts(tool: string, before: Reply, after: Reply, delta: int) {
    && after.isError == before.isError && |after.blocks| == |before.blocks|
    && forall i :: 0 <= i < |before.blocks| ==>
      BlockShifted(ClockFields(tool), before.blocks[i], after.blocks[i], delta)
  }

  ghost predicate LeavesCalendar(tool: string, reply: Reply, delta: int) {
    exists block <- reply.blocks :: BlockOverflows(ClockFields(tool), block, delta)
  }

  lemma EachLeafShifted(paths: set<Path>, payload: Payload, delta: int)
    ensures LeavesShifted(paths, payload, Moved(payload, paths, delta), delta)
  {
    forall address: seq<Hop> ensures LeafShifted(paths, payload, Moved(payload, paths, delta), address, delta) {
      EachLeaf(payload, address, paths, delta);
    }
  }

  lemma HasClockIs(paths: set<Path>, payload: Payload)
    ensures HasClock(paths, payload) <==> Clocks(payload, paths) != {}
  {
    if Clocks(payload, paths) != {} {
      var at :| at in Clocks(payload, paths);
      var address := ClockHasAnAddress(payload, paths, at);
      assert ClockAt(paths, payload, address, at);
    }
    if address: seq<Hop>, at: int :| ClockAt(paths, payload, address, at) {
      AddressIsAClock(payload, paths, address, at);
    }
  }

  lemma OverflowIs(paths: set<Path>, payload: Payload, delta: int)
    ensures Motion(payload, paths, delta).None? <==>
      exists address: seq<Hop> :: Overflows(paths, payload, address, delta)
  {
    if Motion(payload, paths, delta).None? {
      var at :| at in Clocks(payload, paths) && !InRange(at + delta);
      var address := ClockHasAnAddress(payload, paths, at);
      assert Overflows(paths, payload, address, delta);
    }
    if address: seq<Hop> :| Overflows(paths, payload, address, delta) {
      var at :| ClockAt(paths, payload, address, at) && !InRange(at + delta);
      AddressIsAClock(payload, paths, address, at);
    }
  }

  lemma {:induction false} NoClockStays(node: Payload, paths: set<Path>, delta: int)
    requires Clocks(node, paths) == {}
    ensures Moved(node, paths, delta) == node
    decreases node
  {
    if node.Arr? {
      forall i | 0 <= i < |node.items| ensures Moved(node.items[i], paths, delta) == node.items[i] {
        assert forall t <- Clocks(node.items[i], paths) :: t in Clocks(node, paths);
        NoClockStays(node.items[i], paths, delta);
      }
      assert Moved(node, paths, delta).items == node.items;
    } else if node.Obj? {
      forall k | k in node.fields ensures MovedField(node.fields[k], Below(paths, k), delta) == node.fields[k] {
        assert forall t <- FieldClocks(node.fields[k], Below(paths, k)) :: t in Clocks(node, paths);
        if !IsClock(node.fields[k]) {
          NoClockStays(node.fields[k], Below(paths, k), delta);
        }
      }
      assert Moved(node, paths, delta).fields == node.fields;
    }
  }

  lemma StillShifted(paths: set<Path>, payload: Payload, delta: int)
    requires delta == 0 || !HasClock(paths, payload)
    ensures LeavesShifted(paths, payload, payload, delta)
  {
    HasClockIs(paths, payload);
    if delta == 0 {
      MovedNowhere(payload, paths, 0);
    } else {
      NoClockStays(payload, paths, delta);
    }
    EachLeafShifted(paths, payload, delta);
  }

  /** For one: an incident's firing time, wherever a block gives it, is served the offset later, and its name as it
      was. */
  lemma AnIncidentIsMoved(before: Reply, after: Reply, delta: int, i: nat, at: int, name: string)
    requires Shifts("get_incident", before, after, delta) && i < |before.blocks|
    requires before.blocks[i].Document? && before.blocks[i].payload.Obj?
    requires Leaf(before.blocks[i].payload, [Field("fired_at")]) == Some(Str(Instant(at)))
    requires Leaf(before.blocks[i].payload, [Field("name")]) == Some(Str(Words(name)))
    ensures after.blocks[i].Document?
    ensures Leaf(after.blocks[i].payload, [Field("fired_at")]) == Some(Str(Instant(at + delta)))
    ensures Leaf(after.blocks[i].payload, [Field("name")]) == Some(Str(Words(name)))
  {
    var paths, x, y := ClockFields("get_incident"), before.blocks[i], after.blocks[i];
    assert BlockShifted(paths, x, y, delta);
    assert LeafShifted(paths, x.payload, y.payload, [Field("fired_at")], delta);
    assert LeafShifted(paths, x.payload, y.payload, [Field("name")], delta);
    assert ["fired_at"] in paths;
    OneKey("fired_at");
  }

  lemma OneKey(key: string)
    ensures KeysOf([Field(key)]) == [key]
  {
    assert KeysOf([Field(key)][1..]) == [];
  }
}
