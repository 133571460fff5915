/** Lists without repetitions, and lists of the members of a set. */
module Sequences {

  predicate Distinct<T(==, !new)>(s: seq<T>) {
    forall i, j :: 0 <= i < j < |s| ==> s[i] != s[j]
  }

  /** Some order in which to walk through a set. */
  ghost predicate Enumerates<T(!new)>(order: seq<T>, members: set<T>) {
    Distinct(order) && forall x :: x in order <==> x in members
  }

  lemma {:induction false} SomeOrder<T(!new)>(members: set<T>) returns (order: seq<T>)
    ensures Enumerates(order, members)
  {
    if members == {} {
      order := [];
    } else {
      var x :| x in members;
      var rest := SomeOrder(members - {x});
      order := [x] + rest;
    }
  }
}
