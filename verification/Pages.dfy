/** `SELECT id ... WHERE id > :after ORDER BY id LIMIT :limit`, the one query shape
    that both the changelog feed and the bootstrap scan rely on. */
module Pages {

  ghost predicate Increasing(ids: seq<nat>) {
    forall i, j :: 0 <= i < j < |ids| ==> ids[i] < ids[j]
  }

  /** What SQL promises of the answer: ordered, bounded, drawn from the table, and
      leaving out only what the limit cuts off. */
  ghost predicate IsPage(ids: set<nat>, after: nat, limit: nat, page: seq<nat>) {
    && Increasing(page)
    && |page| <= limit
    && (forall x :: x in page ==> x in ids && after < x)
    && (forall x :: x in ids && after < x && x !in page ==>
          |page| == limit && forall y :: y in page ==> y < x)
  }

  predicate IsNext(ids: set<nat>, after: nat, x: nat) {
    && x in ids && after < x
    && forall y :: y in ids && after < y ==> x <= y
  }

  lemma NextExists(ids: set<nat>, after: nat, x0: nat) returns (x: nat)
    requires x0 in ids && after < x0
    ensures IsNext(ids, after, x)
    decreases x0
  {
    if y :| y in ids && after < y < x0 {
      x := NextExists(ids, after, y);
    } else {
      x := x0;
    }
  }

  function Next(ids: set<nat>, after: nat): (x: nat)
    requires exists y :: y in ids && after < y
    ensures IsNext(ids, after, x)
  {
    assert exists x :: IsNext(ids, after, x) by {
      var y :| y in ids && after < y;
      var x := NextExists(ids, after, y);
    }
    var x :| IsNext(ids, after, x);
    x
  }

  function Page(ids: set<nat>, after: nat, limit: nat): (page: seq<nat>)
    ensures IsPage(ids, after, limit, page)
    decreases limit
  {
    if limit == 0 || !exists y :: y in ids && after < y then []
    else
      var x := Next(ids, after);
      PageExtends(ids, after, limit, x, Page(ids, x, limit - 1));
      [x] + Page(ids, x, limit - 1)
  }

  lemma PageExtends(ids: set<nat>, after: nat, limit: nat, x: nat, rest: seq<nat>)
    requires IsNext(ids, after, x) && 1 <= limit && IsPage(ids, x, limit - 1, rest)
    ensures IsPage(ids, after, limit, [x] + rest)
  {
    var page := [x] + rest;
    forall y | y in rest
      ensures x < y && y in ids && after < y
    {
    }
    assert forall y :: y in page <==> y == x || y in rest;
    forall i, j | 0 <= i < j < |page|
      ensures page[i] < page[j]
    {
      if i == 0 {
        assert page[j] == rest[j - 1] && rest[j - 1] in rest;
      } else {
        assert page[i] == rest[i - 1] && page[j] == rest[j - 1];
      }
    }
  }

  /** The query has one answer. */
  lemma {:induction false} PageIsUnique(ids: set<nat>, after: nat, limit: nat, p: seq<nat>, q: seq<nat>)
    requires IsPage(ids, after, limit, p)
    requires IsPage(ids, after, limit, q)
    ensures p == q
    decreases limit
  {
    hide IsPage, IsNext;
    EmptyTogether(ids, after, limit, p, q);
    if p != [] {
      SameFirst(ids, after, limit, p, q);
      PageTail(ids, after, limit, p);
      PageTail(ids, after, limit, q);
      PageIsUnique(ids, p[0], limit - 1, p[1..], q[1..]);
      HeadAndTail(p);
      HeadAndTail(q);
    }
  }

  lemma HeadAndTail(p: seq<nat>)
    requires p != []
    ensures p == [p[0]] + p[1..]
  {
  }

  lemma EmptyTogether(ids: set<nat>, after: nat, limit: nat, p: seq<nat>, q: seq<nat>)
    requires IsPage(ids, after, limit, p) && IsPage(ids, after, limit, q)
    ensures p == [] <==> q == []
    ensures p != [] ==> 0 < limit
  {
    hide Increasing;
    if p != [] {
      assert p[0] in p;
    }
    if q != [] {
      assert q[0] in q;
    }
  }

  lemma SameFirst(ids: set<nat>, after: nat, limit: nat, p: seq<nat>, q: seq<nat>)
    requires IsPage(ids, after, limit, p) && IsPage(ids, after, limit, q) && p != [] && q != []
    ensures p[0] == q[0]
  {
    hide IsPage;
    FirstIsNext(ids, after, limit, p);
    FirstIsNext(ids, after, limit, q);
  }

  lemma FirstIsNext(ids: set<nat>, after: nat, limit: nat, p: seq<nat>)
    requires IsPage(ids, after, limit, p) && p != []
    ensures IsNext(ids, after, p[0])
  {
    assert p[0] in p;
    forall y | y in ids && after < y
      ensures p[0] <= y
    {
      if y in p {
        var j :| 0 <= j < |p| && p[j] == y;
      }
    }
  }

  lemma TailMembers(p: seq<nat>)
    requires Increasing(p) && p != []
    ensures Increasing(p[1..])
    ensures forall x :: x in p[1..] ==> x in p && p[0] < x
    ensures forall x :: x in p <==> x == p[0] || x in p[1..]
  {
    HeadAndTail(p);
    forall x | x in p[1..]
      ensures x in p && p[0] < x
    {
      var j :| 0 <= j < |p[1..]| && p[1..][j] == x;
      assert p[j + 1] == x;
    }
  }

  lemma PageTail(ids: set<nat>, after: nat, limit: nat, p: seq<nat>)
    requires IsPage(ids, after, limit, p) && p != []
    ensures 0 < limit && IsPage(ids, p[0], limit - 1, p[1..])
  {
    hide Increasing;
    TailMembers(p);
    assert p[0] in p;
  }
}
