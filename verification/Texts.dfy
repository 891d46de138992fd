/** Strings as Python compares them, and the sorted listing of a set of them. */
module Texts {
  predicate Leq(a: string, b: string) {
    a == [] || (b != [] && (a[0] < b[0] || (a[0] == b[0] && Leq(a[1..], b[1..]))))
  }

  predicate Less(a: string, b: string) {
    Leq(a, b) && a != b
  }

  lemma {:induction false} Total(a: string, b: string)
    ensures Leq(a, b) || Leq(b, a)
  {
    if a != [] && b != [] && a[0] == b[0] {
      Total(a[1..], b[1..]);
    }
  }

  lemma {:induction false} Antisymmetric(a: string, b: string)
    requires Leq(a, b) && Leq(b, a)
    ensures a == b
  {
    if a != [] {
      Antisymmetric(a[1..], b[1..]);
      assert a == [a[0]] + a[1..] && b == [b[0]] + b[1..];
    }
  }

  lemma {:induction false} Transitive(a: string, b: string, c: string)
    requires Leq(a, b) && Leq(b, c)
    ensures Leq(a, c)
  {
    if a != [] && a[0] == b[0] == c[0] {
      Transitive(a[1..], b[1..], c[1..]);
    }
  }

  predicate Ascending(s: seq<string>) {
    forall i, j :: 0 <= i < j < |s| ==> Less(s[i], s[j])
  }

  predicate Bounds(m: string, s: set<string>) {
    forall x <- s :: Leq(m, x)
  }

  lemma {:induction false} HasLeast(s: set<string>)
    requires s != {}
    ensures exists m <- s :: Bounds(m, s)
  {
    var y :| y in s;
    Total(y, y);
    if s == {y} {
      assert Bounds(y, s);
    } else {
      var rest := s - {y};
      HasLeast(rest);
      var m :| m in rest && Bounds(m, rest);
      Total(m, y);
      if Leq(m, y) {
        assert Bounds(m, s);
      } else {
        forall x | x in s ensures Leq(y, x) {
          if x != y { Transitive(y, m, x); }
        }
        assert Bounds(y, s);
      }
    }
  }

  function Least(s: set<string>): (m: string)
    requires s != {}
    ensures m in s && Bounds(m, s)
  {
    HasLeast(s);
    assert forall a <- s, b <- s :: Bounds(a, s) && Bounds(b, s) ==> a == b by {
      forall a, b | a in s && b in s && Bounds(a, s) && Bounds(b, s) ensures a == b {
        Antisymmetric(a, b);
      }
    }
    var m :| m in s && Bounds(m, s);
    m
  }

  /** `sorted(s)` for a set of strings. */
  function Sorted(s: set<string>): (listed: seq<string>)
    ensures forall x :: x in listed <==> x in s
    ensures |listed| == |s|
    ensures Ascending(listed)
    ensures forall i, j :: 0 <= i < j < |listed| ==> listed[i] != listed[j]
  {
    if s == {} then []
    else
      var m, rest := Least(s), Sorted(s - {Least(s)});
      LeastFirst(s, m, rest);
      [m] + rest
  }

  lemma LeastFirst(s: set<string>, m: string, rest: seq<string>)
    requires m in s && Bounds(m, s) && Ascending(rest) && (forall x :: x in rest <==> x in s - {m})
    ensures Ascending([m] + rest) && forall x :: x in [m] + rest <==> x in s
    ensures forall i, j :: 0 <= i < j < |[m] + rest| ==> ([m] + rest)[i] != ([m] + rest)[j]
  {
    assert forall x <- rest :: Less(m, x);
  }

  /** A mark neither text holds parts their joins in one place. */
  lemma CutAtTheFirst(a: string, x: string, b: string, y: string, mark: char)
    requires mark !in a && mark !in b && a + [mark] + x == b + [mark] + y
    ensures a == b && x == y
  {
    var s := a + [mark] + x;
    assert forall i :: 0 <= i < |a| ==> s[i] == a[i];
    assert forall i :: 0 <= i < |b| ==> s[i] == b[i];
    assert s[|a|] == mark && s[|b|] == mark;
    assert |a| == |b|;
    assert s[..|a|] == a && s[..|b|] == b && s[|a| + 1..] == x && s[|b| + 1..] == y;
  }
}
