/** What it means that one list is picked out of another: in its order, each pick once, and none left out. */
module Filtering {
  import opened Wrappers

  /** `at` says where in the whole each part stands. */
  ghost predicate Positions<A, B>(at: seq<nat>, whole: seq<A>, part: seq<B>, pick: A -> Option<B>) {
    && |at| == |part|
    && (forall n :: 0 <= n < |at| ==> at[n] < |whole| && pick(whole[at[n]]) == Some(part[n]))
    && (forall m, n :: 0 <= m < n < |at| ==> at[m] < at[n])
    && forall i :: 0 <= i < |whole| && pick(whole[i]).Some? ==> i in at
  }

  ghost predicate PickedFrom<A, B>(whole: seq<A>, part: seq<B>, pick: A -> Option<B>) {
    exists at: seq<nat> :: Positions(at, whole, part, pick)
  }

  lemma NothingPicked<A, B>(pick: A -> Option<B>)
    ensures PickedFrom([], [], pick)
  {
    assert Positions([], [], [], pick);
  }

  lemma OneMorePicked<A, B>(whole: seq<A>, part: seq<B>, pick: A -> Option<B>, last: A)
    requires PickedFrom(whole, part, pick)
    ensures PickedFrom(whole + [last], part + if pick(last).Some? then [pick(last).value] else [], pick)
  {
    var at: seq<nat> :| Positions(at, whole, part, pick);
    if pick(last).Some? {
      LastPicked(at, whole, part, pick, last);
    } else {
      LastLeft(at, whole, part, pick, last);
      assert part + [] == part;
    }
  }

  lemma LastLeft<A, B>(at: seq<nat>, whole: seq<A>, part: seq<B>, pick: A -> Option<B>, last: A)
    requires Positions(at, whole, part, pick) && pick(last).None?
    ensures Positions(at, whole + [last], part, pick)
  {
    forall i | 0 <= i < |whole + [last]| && pick((whole + [last])[i]).Some? ensures i in at {
      assert i < |whole| && pick(whole[i]).Some?;
    }
  }

  lemma LastPicked<A, B>(at: seq<nat>, whole: seq<A>, part: seq<B>, pick: A -> Option<B>, last: A)
    requires Positions(at, whole, part, pick) && pick(last).Some?
    ensures Positions(at + [|whole|], whole + [last], part + [pick(last).value], pick)
  {
    var more, longer, parts := whole + [last], at + [|whole|], part + [pick(last).value];
    forall n | 0 <= n < |longer| ensures longer[n] < |more| && pick(more[longer[n]]) == Some(parts[n]) {
      assert n < |at| ==> longer[n] == at[n] && more[at[n]] == whole[at[n]] && parts[n] == part[n];
    }
    forall i | 0 <= i < |more| && pick(more[i]).Some? ensures i in longer {
      if i < |whole| {
        assert pick(whole[i]).Some? && i in at;
      } else {
        assert longer[|at|] == i;
      }
    }
    forall m, n | 0 <= m < n < |longer| ensures longer[m] < longer[n] {
    }
  }
}
