/** What each rule of evals/fixture_drift.py forgives, said of the recorded and live values
    themselves, and the proof that the checks report nothing exactly then. */
module MovementRules {
  import opened Json
  import opened WorldComparison

  lemma BothEmpty<T>(a: seq<T>, b: seq<T>)
    ensures a + b == [] <==> a == [] && b == []
  {
    assert |a + b| == |a| + |b|;
  }

  // ----- Equal values -----

  /** A value with each boolean read as the number Python compares it as. */
  function Canon(v: Value): Value
    decreases v
  {
    match v
    case Bool(on) => Num(if on then 1.0 else 0.0)
    case Arr(items) => Arr(seq(|items|, i requires 0 <= i < |items| => Canon(items[i])))
    case Obj(fields) => Obj(map k | k in fields :: Canon(fields[k]))
    case _ => v
  }

  /** Python's `==` on parsed JSON is equality once the booleans are numbers. */
  lemma {:induction false} SameIsCanonical(a: Value, b: Value)
    ensures Same(a, b) <==> Canon(a) == Canon(b)
    decreases a, 1
  {
    if a.Arr? && b.Arr? {
      SameItems(a, b);
    } else if a.Obj? && b.Obj? {
      SameFields(a, b);
    }
  }

  lemma {:induction false} SameItems(a: Value, b: Value)
    requires a.Arr? && b.Arr?
    ensures Same(a, b) <==> Canon(a) == Canon(b)
    decreases a, 0
  {
    var x, y := Canon(a).items, Canon(b).items;
    forall i | 0 <= i < |a.items| && i < |b.items| ensures Same(a.items[i], b.items[i]) <==> x[i] == y[i] {
      SameIsCanonical(a.items[i], b.items[i]);
    }
  }

  lemma {:induction false} SameFields(a: Value, b: Value)
    requires a.Obj? && b.Obj?
    ensures Same(a, b) <==> Canon(a) == Canon(b)
    decreases a, 0
  {
    var x, y := Canon(a).fields, Canon(b).fields;
    assert x.Keys == a.fields.Keys && y.Keys == b.fields.Keys;
    forall k | k in a.fields && k in b.fields ensures Same(a.fields[k], b.fields[k]) <==> x[k] == y[k] {
      SameIsCanonical(a.fields[k], b.fields[k]);
    }
    if Same(a, b) {
      assert x == y;
    }
  }

  /** The live values hold this one, with its JSON type. */
  predicate Held(v: Value, domain: seq<Value>) {
    exists w <- domain :: TypeOf(w) == TypeOf(v) && Canon(w) == Canon(v)
  }

  lemma ReachableIsHeld(v: Value, domain: seq<Value>)
    ensures Reachable(v, domain) <==> Held(v, domain)
  {
    forall w | w in domain { SameIsCanonical(w, v); }
  }

  predicate Scalar(v: Value) {
    !v.Arr? && !v.Obj?
  }

  /** A scalar is held only as itself: a string by that string, a number by that number. */
  lemma ScalarIsHeldAsItself(v: Value, domain: seq<Value>)
    requires Scalar(v)
    ensures Held(v, domain) <==> v in domain
  {
  }

  // ----- Values of a list -----

  predicate HasNumbers(domain: seq<Value>) {
    exists w <- domain :: w.Num?
  }

  predicate SameSide(x: real, y: real) {
    (x > 0.0 <==> y > 0.0) && (x < 0.0 <==> y < 0.0)
  }

  predicate TypeFound(v: Value, domain: seq<Value>) {
    exists w <- domain :: TypeOf(w) == TypeOf(v)
  }

  predicate AllTypesFound(values: seq<Value>, domain: seq<Value>) {
    forall v <- values :: TypeFound(v, domain)
  }

  /** Where both sides have values, each JSON type of one is a type of the other. */
  predicate TypesKept(values: seq<Value>, domain: seq<Value>) {
    values != [] && domain != [] ==> AllTypesFound(values, domain) && AllTypesFound(domain, values)
  }

  /** Where there are live numbers, one has the sign of the recorded number. */
  predicate SignKept(v: Value, domain: seq<Value>) {
    v.Num? && HasNumbers(domain) ==> exists w <- domain :: w.Num? && SameSide(v.n, w.n)
  }

  /** Where there are live numbers, the recorded number does not exceed all of them. */
  predicate FloorKept(v: Value, domain: seq<Value>) {
    v.Num? && HasNumbers(domain) ==> exists w <- domain :: w.Num? && v.n <= w.n
  }

  /** A recorded leaf that is not a random id is one the live list holds, with its type. */
  predicate PinnedKept(v: Value, domain: seq<Value>) {
    IsMinted(v) || Held(v, domain)
  }

  predicate AllSignsKept(values: seq<Value>, domain: seq<Value>) {
    forall v <- values :: SignKept(v, domain)
  }

  predicate AllFloorsKept(values: seq<Value>, domain: seq<Value>) {
    forall v <- values :: FloorKept(v, domain)
  }

  /** The different random ids among these values. */
  function RandomIds(values: seq<Value>): (ids: set<string>)
    ensures forall id :: id in ids <==> Str(id) in values && IsRandomUuid(id)
  {
    var ids := set v <- values | v.Str? && IsRandomUuid(v.text) :: v.text;
    assert forall v <- values :: v.Str? ==> v == Str(v.text);
    ids
  }

  /** What a rule asks of the recorded leaves of a list, given the live ones. */
  ghost predicate LeafRuleKept(rule: Rule, values: seq<Value>, domain: seq<Value>) {
    match rule
    case MintedId => |RandomIds(values)| <= |RandomIds(domain)| && forall v <- values :: PinnedKept(v, domain)
    case WindowCount | HeldCount => TypesKept(values, domain) && AllSignsKept(values, domain)
    case CountFloor => TypesKept(values, domain) && AllFloorsKept(values, domain)
    case FiringReading | WindowReading | ThresholdSide => TypesKept(values, domain)
  }

  /** Clocks and free text are forgiven, a moved leaf follows its rule, any other is a live value. */
  ghost predicate LeavesForgiven(p: Policy, path: Path, values: seq<Value>, domain: seq<Value>) {
    || path in p.volatile
    || path in p.unbounded
    || if path in p.honest then LeafRuleKept(p.honest[path].rule, values, domain)
      else forall v <- values :: Held(v, domain)
  }

  lemma {:induction false} MembersClean(values: seq<Value>, domain: seq<Value>, at: seq<Step>)
    ensures MemberDrifts(values, domain, at) == [] <==> forall v <- values :: Held(v, domain)
  {
    if values != [] {
      var init, last := values[..|values| - 1], values[|values| - 1];
      assert values == init + [last];
      MembersClean(init, domain, at);
      BothEmpty(MemberDrifts(init, domain, at), MemberDrift(last, domain, at));
      ReachableIsHeld(last, domain);
      if domain != [] && TypeOf(last) !in TypesOf(domain) {
        assert !Reachable(last, domain);
      }
    }
  }

  lemma {:induction false} PinnedAre(values: seq<Value>)
    ensures forall v :: v in Pinned(values) <==> v in values && !IsMinted(v)
  {
    if values != [] {
      PinnedAre(values[1..]);
      assert values == [values[0]] + values[1..];
    }
  }

  lemma {:induction false} SignsClean(values: seq<Value>, domain: seq<Value>, at: seq<Step>)
    ensures SignDrifts(values, domain, at) == [] <==> AllSignsKept(values, domain)
  {
    if values != [] {
      var init, last := values[..|values| - 1], values[|values| - 1];
      assert values == init + [last];
      SignsClean(init, domain, at);
      BothEmpty(SignDrifts(init, domain, at), SignDrift(last, domain, at));
      assert SignLost(last, domain) <==> !SignKept(last, domain);
    }
  }

  lemma {:induction false} FloorsClean(values: seq<Value>, domain: seq<Value>, at: seq<Step>)
    ensures FloorDrifts(values, domain, at) == [] <==> AllFloorsKept(values, domain)
  {
    if values != [] {
      var init, last := values[..|values| - 1], values[|values| - 1];
      assert values == init + [last];
      FloorsClean(init, domain, at);
      BothEmpty(FloorDrifts(init, domain, at), FloorDrift(last, domain, at));
      assert UnderFloor(last, domain) <==> !FloorKept(last, domain);
    }
  }

  lemma FoundTypes(values: seq<Value>, domain: seq<Value>)
    ensures AllTypesFound(values, domain) <==> TypesOf(values) <= TypesOf(domain)
  {
    if TypesOf(values) <= TypesOf(domain) {
      forall v | v in values ensures TypeFound(v, domain) {
        assert TypeOf(v) in TypesOf(values);
      }
    }
  }

  lemma TypesDecide(values: seq<Value>, domain: seq<Value>)
    ensures TypesMoved(values, domain) <==> !TypesKept(values, domain)
  {
    FoundTypes(values, domain);
    FoundTypes(domain, values);
  }

  lemma IdsDecide(values: seq<Value>, domain: seq<Value>, at: seq<Step>)
    ensures MovedLeafDrifts(MintedId, values, domain, at) == [] <==> LeafRuleKept(MintedId, values, domain)
  {
    MembersClean(Pinned(values), domain, at);
    PinnedAre(values);
    assert MintedTexts(values) == RandomIds(values) && MintedTexts(domain) == RandomIds(domain);
  }

  /** A moved leaf's rule reports nothing exactly when it is kept. */
  lemma {:induction false} LeafRuleDecides(rule: Rule, values: seq<Value>, domain: seq<Value>, at: seq<Step>)
    ensures MovedLeafDrifts(rule, values, domain, at) == [] <==> LeafRuleKept(rule, values, domain)
  {
    if rule.MintedId? {
      IdsDecide(values, domain, at);
    } else if rule.WindowCount? || rule.HeldCount? {
      TypesDecide(values, domain);
      SignsClean(values, domain, at);
    } else if rule.CountFloor? {
      TypesDecide(values, domain);
      FloorsClean(values, domain, at);
    } else {
      TypesDecide(values, domain);
    }
  }

  lemma {:induction false} LeavesDecide(p: Policy, canned: Value, live: Value, at: seq<Step>)
    ensures LeafDrifts(p, canned, live, at) == [] <==> LeavesForgiven(p, PolicyPath(at), Leaves(canned), Leaves(live))
  {
    var path := PolicyPath(at);
    if path in p.honest {
      LeafRuleDecides(p.honest[path].rule, Leaves(canned), Leaves(live), at);
    }
    MembersClean(Leaves(canned), Leaves(live), at);
  }

  // ----- One value -----

  /** Null is a value of every type. */
  predicate TypesAgree(canned: Value, live: Value) {
    canned.Null? || live.Null? || TypeOf(canned) == TypeOf(live)
  }

  predicate Unmoved(canned: Value, live: Value) {
    TypesAgree(canned, live) && Canon(canned) == Canon(live)
  }

  /** A scalar is unmoved only as itself. */
  lemma UnmovedScalar(canned: Value, live: Value)
    requires Scalar(canned)
    ensures Unmoved(canned, live) <==> canned == live
  {
  }

  /** What a rule asks of one value outside lists; a value it does not speak of must be the same. */
  predicate ScalarRuleKept(rule: Rule, canned: Value, live: Value) {
    match rule
    case MintedId => if IsMinted(canned) then IsMinted(live) else Unmoved(canned, live)
    case FiringReading | WindowReading => TypesAgree(canned, live)
    case WindowCount | HeldCount => if canned.Num? && live.Num? then SameSide(canned.n, live.n)
      else Unmoved(canned, live)
    case CountFloor => if canned.Num? && live.Num? then canned.n <= live.n else Unmoved(canned, live)
    case ThresholdSide => Unmoved(canned, live)
  }

  predicate ScalarForgiven(p: Policy, path: Path, canned: Value, live: Value) {
    if path in p.volatile then TypesAgree(canned, live)
    else if path in p.honest then ScalarRuleKept(p.honest[path].rule, canned, live)
    else Unmoved(canned, live)
  }

  lemma ScalarRuleDecides(rule: Rule, canned: Value, live: Value, at: seq<Step>)
    ensures MovedScalarDrifts(rule, canned, live, at) == [] <==> ScalarRuleKept(rule, canned, live)
  {
    SameIsCanonical(canned, live);
  }

  lemma ScalarDecides(p: Policy, canned: Value, live: Value, at: seq<Step>)
    ensures ScalarDrifts(p, canned, live, at, false) == [] <==> ScalarForgiven(p, PolicyPath(at), canned, live)
  {
    SameIsCanonical(canned, live);
    if PolicyPath(at) in p.honest {
      ScalarRuleDecides(p.honest[PolicyPath(at)].rule, canned, live, at);
    }
  }

  /** A reading beside its threshold: both readings on one side of their own thresholds, or the
      same reading where either payload has no threshold. */
  predicate ReadingKept(threshold: string, key: string, canned: map<string, Value>, live: map<string, Value>)
    requires key in canned && key in live
  {
    && TypesAgree(canned[key], live[key])
    && if threshold in canned && threshold in live && canned[threshold].Num? && live[threshold].Num? then
        (canned[key].Num? && canned[threshold].n <= canned[key].n
        <==> live[key].Num? && live[threshold].n <= live[key].n)
      else Canon(canned[key]) == Canon(live[key])
  }

  lemma ReadingDecides(
      threshold: string, key: string, canned: map<string, Value>, live: map<string, Value>, at: seq<Step>)
    requires key in canned && key in live
    ensures ThresholdDrifts(threshold, key, canned, live, at) == [] <==> ReadingKept(threshold, key, canned, live)
  {
    SameIsCanonical(canned[key], live[key]);
  }

  // ----- Cut nodes and minted rows -----

  /** Some recorded value has the type of some live one, if both sides have values at all. */
  predicate ShapesMeet(canned: seq<Value>, live: seq<Value>) {
    canned != [] && live != [] ==> exists v <- canned :: TypeFound(v, live)
  }

  lemma ShapeDecides(canned: Value, live: Value, at: seq<Step>)
    ensures ShapeDrifts(canned, live, at) == [] <==> ShapesMeet(Leaves(canned), Leaves(live))
  {
    var cs, ls := Leaves(canned), Leaves(live);
    if v :| v in cs && TypeFound(v, ls) {
      assert TypeOf(v) in TypesOf(cs) * TypesOf(ls);
    }
    if t :| t in TypesOf(cs) * TypesOf(ls) {
      var v :| v in cs && TypeOf(v) == t;
      assert TypeFound(v, ls);
    }
    assert cs != [] ==> TypeOf(cs[0]) in TypesOf(cs);
    assert ls != [] ==> TypeOf(ls[0]) in TypesOf(ls);
  }

  /** Every identity among the recorded minted rows is among the live ones as many times. */
  predicate RowsCovered(p: Policy, path: Path, canned: seq<Value>, live: seq<Value>) {
    p.HasMove(path + ["id"], MintedId) ==>
      MintedIdentities(canned, path, p.Relaxed()) <= MintedIdentities(live, path, p.Relaxed())
  }

  lemma MissingMeansUncovered(canned: multiset<Value>, live: multiset<Value>)
    ensures |Distinct(canned - live)| > 0 <==> !(canned <= live)
  {
    if canned <= live {
      assert canned - live == multiset{};
      assert Distinct(canned - live) == {};
    } else {
      var v :| v in canned && canned[v] > live[v];
      assert (canned - live)[v] == canned[v] - live[v];
      assert v in Distinct(canned - live);
    }
  }

  lemma MintedDecides(p: Policy, canned: seq<Value>, live: seq<Value>, at: seq<Step>)
    ensures MintedDrifts(p, canned, live, at) == [] <==> RowsCovered(p, PolicyPath(at), canned, live)
  {
    var path := PolicyPath(at);
    MissingMeansUncovered(MintedIdentities(canned, path, p.Relaxed()), MintedIdentities(live, path, p.Relaxed()));
  }
}
