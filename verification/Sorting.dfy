/** Sorting by a key as Python's `sorted` does, and why a set has one listing in a strict order. */
module Sorting {
  ghost predicate TotalPreorder<T(!new)>(leq: (T, T) -> bool) {
    && (forall a, b :: leq(a, b) || leq(b, a))
    && (forall a, b, c :: leq(a, b) && leq(b, c) ==> leq(a, c))
  }

  ghost predicate SortedBy<T>(leq: (T, T) -> bool, s: seq<T>) {
    forall i, j :: 0 <= i < j < |s| ==> leq(s[i], s[j])
  }

  /** `x` behind the last element it does not come before: equal keys keep their order. */
  function InsertBy<T(!new)>(leq: (T, T) -> bool, s: seq<T>, x: T): (out: seq<T>)
    requires TotalPreorder(leq) && SortedBy(leq, s)
    ensures SortedBy(leq, out) && (forall y <- out :: y in s || y == x)
    ensures multiset(out) == multiset(s) + multiset{x}
  {
    if s == [] then [x]
    else
      var init, last := s[..|s| - 1], s[|s| - 1];
      assert s == init + [last];
      if leq(last, x) then s + [x]
      else
        var out := InsertBy(leq, init, x);
        assert forall y <- out :: leq(y, last);
        out + [last]
  }

  method Sort<T(!new)>(leq: (T, T) -> bool, s: seq<T>) returns (out: seq<T>)
    requires TotalPreorder(leq)
    ensures SortedBy(leq, out) && multiset(out) == multiset(s)
  {
    out := [];
    for i := 0 to |s|
      invariant SortedBy(leq, out) && multiset(out) == multiset(s[..i])
    {
      assert s[..i + 1] == s[..i] + [s[i]];
      out := InsertBy(leq, out, s[i]);
    }
    assert s[..|s|] == s;
  }

  ghost predicate StrictOrder<T(!new)>(before: (T, T) -> bool) {
    && (forall a :: !before(a, a))
    && (forall a, b, c :: before(a, b) && before(b, c) ==> before(a, c))
  }

  ghost predicate Ordered<T>(before: (T, T) -> bool, s: seq<T>) {
    forall i, j :: 0 <= i < j < |s| ==> before(s[i], s[j])
  }

  /** Two listings of the same elements in the same strict order are the same listing. */
  lemma {:induction false} OneListing<T(!new)>(before: (T, T) -> bool, s: seq<T>, t: seq<T>)
    requires StrictOrder(before) && Ordered(before, s) && Ordered(before, t)
    requires forall x :: x in s <==> x in t
    ensures s == t
  {
    if s == [] {
      forall x ensures multiset(t)[x] == 0 {
        assert x !in s && x !in t;
      }
      assert multiset(t) == multiset{};
      assert |multiset(t)| == |t|;
    } else {
      assert s[0] in t && t != [];
      assert t[0] in s;
      SameHead(before, s, t);
      forall x ensures x in s[1..] <==> x in t[1..] {
        TailIsTheRest(before, s, x);
        TailIsTheRest(before, t, x);
      }
      OneListing(before, s[1..], t[1..]);
      assert s == [s[0]] + s[1..] && t == [t[0]] + t[1..];
    }
  }

  lemma SameHead<T(!new)>(before: (T, T) -> bool, s: seq<T>, t: seq<T>)
    requires StrictOrder(before) && Ordered(before, s) && Ordered(before, t)
    requires s != [] && t != [] && s[0] in t && t[0] in s
    ensures s[0] == t[0]
  {
    if s[0] != t[0] {
      HeadIsFirst(before, t, s[0]);
      HeadIsFirst(before, s, t[0]);
    }
  }

  lemma HeadIsFirst<T(!new)>(before: (T, T) -> bool, s: seq<T>, x: T)
    requires Ordered(before, s) && x in s && x != s[0]
    ensures before(s[0], x)
  {
    var i :| 0 <= i < |s| && s[i] == x;
  }

  lemma TailIsTheRest<T(!new)>(before: (T, T) -> bool, s: seq<T>, x: T)
    requires StrictOrder(before) && Ordered(before, s) && s != []
    ensures x in s[1..] <==> x in s && x != s[0]
  {
    assert s == [s[0]] + s[1..];
    if x in s[1..] {
      var i :| 0 <= i < |s[1..]| && s[1..][i] == x;
      assert before(s[0], s[i + 1]);
    }
  }

  lemma {:induction false} OnceEach<T>(s: seq<T>, x: T)
    requires forall i, j :: 0 <= i < j < |s| ==> s[i] != s[j]
    ensures multiset(s)[x] <= 1
  {
    if s != [] {
      assert s == s[..|s| - 1] + [s[|s| - 1]];
      OnceEach(s[..|s| - 1], x);
      if s[|s| - 1] == x {
        assert x !in s[..|s| - 1];
      }
    }
  }

  /** Reordering brings no element twice. */
  lemma StillOnceEach<T>(s: seq<T>, t: seq<T>, i: nat, j: nat)
    requires forall a, b :: 0 <= a < b < |s| ==> s[a] != s[b]
    requires multiset(s) == multiset(t) && i < j < |t|
    ensures t[i] != t[j]
  {
    OnceEach(s, t[i]);
    assert t == t[..j] + ([t[j]] + t[j + 1..]);
    assert t[i] in t[..j];
    assert multiset(t[..j])[t[i]] >= 1;
  }

  /** The elements of a set as a list, in whatever order. */
  method ListOf<T>(elements: set<T>) returns (listed: seq<T>)
    ensures multiset(listed) == multiset(elements)
    ensures forall x :: x in listed <==> x in elements
    ensures forall i, j :: 0 <= i < j < |listed| ==> listed[i] != listed[j]
  {
    listed := [];
    var todo := elements;
    while todo != {}
      invariant todo <= elements && multiset(listed) == multiset(elements - todo)
      invariant forall x :: x in listed <==> x in elements - todo
      invariant forall i, j :: 0 <= i < j < |listed| ==> listed[i] != listed[j]
    {
      var x :| x in todo;
      listed := listed + [x];
      assert elements - (todo - {x}) == (elements - todo) + {x};
      todo := todo - {x};
    }
    assert elements - todo == elements;
  }
}
