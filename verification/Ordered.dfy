/** Finite sets of ids read in increasing order, the way std::set and std::map iterate. */
module Ordered {

  ghost predicate Increasing(q: seq<int>) {
    forall i, j :: 0 <= i < j < |q| ==> q[i] < q[j]
  }

  lemma HasMember(s: set<int>)
    ensures s != {} ==> exists y :: y in s
  {
    if forall y :: y !in s {
      assert s == {};
    }
  }

  lemma LeastExists(s: set<int>)
    requires s != {}
    ensures exists m :: m in s && forall x :: x in s ==> m <= x
  {
    HasMember(s);
    var y :| y in s;
    if s != {y} {
      LeastExists(s - {y});
      var m :| m in s - {y} && forall x :: x in s - {y} ==> m <= x;
      var k := if y < m then y else m;
      assert forall x :: x in s ==> x == y || x in s - {y};
      assert k in s && forall x :: x in s ==> k <= x;
    }
  }

  function Least(s: set<int>): (m: int)
    requires s != {}
    ensures m in s && forall x :: x in s ==> m <= x
  {
    LeastExists(s);
    var m :| m in s && forall x :: x in s ==> m <= x;
    m
  }

  /** The elements of a set, least first. */
  function SortedIds(s: set<int>): (q: seq<int>)
    ensures Increasing(q)
    ensures forall x :: x in q <==> x in s
    ensures |q| == |s|
  {
    if s == {} then []
    else
      var m := Least(s);
      [m] + SortedIds(s - {m})
  }

  /** A sequence without repetition has as many members as positions. */
  lemma {:induction false} DistinctCount<T>(q: seq<T>, s: set<T>)
    requires forall i, j :: 0 <= i < j < |q| ==> q[i] != q[j]
    requires forall x :: x in q <==> x in s
    ensures |q| == |s|
  {
    if q == [] {
      assert s == {};
    } else {
      var x := q[|q| - 1];
      var rest := q[..|q| - 1];
      forall y ensures y in rest <==> y in s - {x} {
        if y in s - {x} {
          var i :| 0 <= i < |q| && q[i] == y;
          assert rest[i] == y;
        }
      }
      DistinctCount(rest, s - {x});
    }
  }
}
