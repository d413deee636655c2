/** ORDER BY: the rows of a query as a sequence, strictly increasing under the query's order. */
module Ordering {

  ghost predicate Increasing<T>(less: (T, T) -> bool, q: seq<T>) {
    forall i, j :: 0 <= i < j < |q| ==> less(q[i], q[j])
  }

  /** less orders the elements of s: any two different ones are related one way, and it is transitive. */
  ghost predicate Orders<T>(less: (T, T) -> bool, s: set<T>) {
    && (forall x, y :: x in s && y in s && x != y ==> less(x, y) || less(y, x))
    && (forall x, y, z :: x in s && y in s && z in s && less(x, y) && less(y, z) ==> less(x, z))
  }

  function InsertInto<T(==)>(less: (T, T) -> bool, q: seq<T>, x: T): seq<T> {
    if q == [] || less(x, q[0]) then [x] + q else [q[0]] + InsertInto(less, q[1..], x)
  }

  lemma {:induction false} InsertIntoMember<T>(less: (T, T) -> bool, q: seq<T>, x: T, y: T)
    ensures y in InsertInto(less, q, x) <==> y in q || y == x
  {
    if q != [] && !less(x, q[0]) {
      InsertIntoMember(less, q[1..], x, y);
      assert q == [q[0]] + q[1..];
    }
  }

  lemma {:induction false} InsertIntoIncreasing<T>(less: (T, T) -> bool, q: seq<T>, x: T, s: set<T>)
    requires Increasing(less, q) && Orders(less, s) && x in s && x !in q && forall y :: y in q ==> y in s
    ensures Increasing(less, InsertInto(less, q, x))
  {
    if q != [] {
      var r := InsertInto(less, q, x);
      if less(x, q[0]) {
        forall j | 1 <= j < |r|
          ensures less(r[0], r[j])
        {
          assert r[j] == q[j - 1] && q[j - 1] in q;
          assert j == 1 || less(q[0], q[j - 1]);
        }
      } else {
        InsertIntoIncreasing(less, q[1..], x, s);
        var rest := InsertInto(less, q[1..], x);
        forall j | 1 <= j < |r|
          ensures less(r[0], r[j])
        {
          var y := rest[j - 1];
          assert r[j] == y;
          InsertIntoMember(less, q[1..], x, y);
          if y != x {
            var k :| 1 <= k < |q| && q[k] == y;
          } else {
            assert q[0] in q && q[0] in s && q[0] != x;
          }
        }
      }
    }
  }

  /** Runs an ordered query whose result set is s. */
  method OrderBy<T(==)>(s: set<T>, less: (T, T) -> bool) returns (q: seq<T>)
    requires Orders(less, s)
    ensures Increasing(less, q)
    ensures forall x :: x in q <==> x in s
  {
    q := [];
    var rest := s;
    while rest != {}
      invariant rest <= s && Increasing(less, q)
      invariant forall x :: x in q <==> x in s - rest
      decreases rest
    {
      var x :| x in rest;
      forall y {
        InsertIntoMember(less, q, x, y);
      }
      InsertIntoIncreasing(less, q, x, s);
      q := InsertInto(less, q, x);
      rest := rest - {x};
    }
  }

  /** q lists the result set s, in some order. */
  ghost predicate Lists<T(!new)>(q: seq<T>, s: set<T>) {
    forall x :: x in q <==> x in s
  }

  /** Runs an unordered query: the rows come in an order nobody promises. */
  method AnyOrder<T(==, !new)>(s: set<T>) returns (q: seq<T>)
    ensures Lists(q, s) && |q| == |s|
  {
    q := [];
    var rest := s;
    while rest != {}
      invariant rest <= s && |q| == |s| - |rest|
      invariant forall x :: x in q <==> x in s - rest
      decreases rest
    {
      var x :| x in rest;
      q := q + [x];
      rest := rest - {x};
    }
  }

  lemma HasMember<T>(q: seq<T>)
    requires q != []
    ensures exists x :: x in q
  {
    assert q[0] in q;
  }

  lemma TailMembers<T>(less: (T, T) -> bool, q: seq<T>, x: T)
    requires q != [] && Increasing(less, q) && forall y, z :: less(y, z) ==> !less(z, y)
    ensures x in q[1..] <==> x in q && x != q[0]
  {
    if x in q[1..] {
      var k :| 1 <= k < |q| && q[k] == x;
      assert less(q[0], x);
    }
    assert q == [q[0]] + q[1..];
  }

  /** The order leaves no choice: two increasing sequences with the same members are equal. */
  lemma {:induction false} IncreasingUnique<T>(less: (T, T) -> bool, a: seq<T>, b: seq<T>)
    requires Increasing(less, a) && Increasing(less, b)
    requires forall x, y :: less(x, y) ==> !less(y, x)
    requires forall x :: x in a <==> x in b
    ensures a == b
  {
    if a == [] {
      if b != [] {
        HasMember(b);
        assert false;
      }
    } else {
      assert a[0] in b && b[0] in a;
      var i :| 0 <= i < |b| && b[i] == a[0];
      var j :| 0 <= j < |a| && a[j] == b[0];
      assert i == 0;
      forall x
        ensures x in a[1..] <==> x in b[1..]
      {
        TailMembers(less, a, x);
        TailMembers(less, b, x);
      }
      IncreasingUnique(less, a[1..], b[1..]);
    }
  }
}
