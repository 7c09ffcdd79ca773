/** Finite sets: an element, the lowest, the highest, and how large a subset is. */
module Sets {

  lemma SomeElement<T>(s: set<T>) returns (x: T)
    requires s != {}
    ensures x in s
  {
    x :| x in s;
  }

  lemma SubsetIsNoLarger<T>(a: set<T>, b: set<T>)
    requires a <= b
    ensures |a| <= |b|
    ensures a != b ==> |a| < |b|
  {
    assert b == a + (b - a);
  }

  predicate IsLeast(ids: set<nat>, x: nat) {
    x in ids && forall y :: y in ids ==> x <= y
  }

  lemma {:induction false} LeastExists(ids: set<nat>, x: nat) returns (least: nat)
    requires x in ids
    ensures IsLeast(ids, least)
    decreases x
  {
    if y :| y in ids && y < x {
      least := LeastExists(ids, y);
    } else {
      least := x;
    }
  }

  function Least(ids: set<nat>): (x: nat)
    requires ids != {}
    ensures IsLeast(ids, x)
  {
    assert exists x :: IsLeast(ids, x) by {
      var y :| y in ids;
      var x := LeastExists(ids, y);
    }
    var x :| IsLeast(ids, x);
    x
  }

  function Highest(ids: set<nat>): (top: nat)
    requires ids != {}
    ensures top in ids && forall id :: id in ids ==> id <= top
  {
    HighestExists(ids);
    var top :| top in ids && forall id :: id in ids ==> id <= top;
    top
  }

  lemma HighestExists(ids: set<nat>)
    requires ids != {}
    ensures exists top :: top in ids && forall id :: id in ids ==> id <= top
  {
    var x :| x in ids;
    var rest := ids - {x};
    assert forall id :: id in ids ==> id == x || id in rest;
    if rest != {} {
      HighestExists(rest);
      var top :| top in rest && forall id :: id in rest ==> id <= top;
      assert if x <= top then top in ids && forall id :: id in ids ==> id <= top
             else x in ids && forall id :: id in ids ==> id <= x;
    }
  }

  lemma {:induction false} LowestExists(months: set<int>)
    requires months != {}
    ensures exists m :: m in months && forall r :: r in months ==> m <= r
  {
    var x := SomeElement(months);
    var rest := months - {x};
    assert forall r :: r in months ==> r == x || r in rest;
    if rest != {} {
      LowestExists(rest);
      var m :| m in rest && forall r :: r in rest ==> m <= r;
      assert if x <= m then x in months && forall r :: r in months ==> x <= r
             else m in months && forall r :: r in months ==> m <= r;
    }
  }
}
