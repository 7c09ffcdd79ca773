/** The equivalence closure of a set of pairs. */
module Closure {

  type Pairs = set<(int, int)>

  ghost predicate Joined(pairs: Pairs, a: int, b: int) {
    (a, b) in pairs || (b, a) in pairs
  }

  ghost predicate Path(pairs: Pairs, p: seq<int>, a: int, b: int) {
    && |p| > 0 && p[0] == a && p[|p| - 1] == b
    && forall i :: 0 < i < |p| ==> Joined(pairs, p[i - 1], p[i])
  }

  /** The equivalence closure of the pairs: some path leads from one to the other. */
  ghost predicate Connected(pairs: Pairs, a: int, b: int) {
    exists p :: Path(pairs, p, a, b)
  }

  lemma ConnectedToItself(pairs: Pairs, a: int)
    ensures Connected(pairs, a, a)
  {
    assert Path(pairs, [a], a, a);
  }

  lemma JoinedIsConnected(pairs: Pairs, a: int, b: int)
    requires Joined(pairs, a, b)
    ensures Connected(pairs, a, b)
  {
    assert Path(pairs, [a, b], a, b);
  }

  lemma ConnectedTransitively(pairs: Pairs, a: int, b: int, c: int)
    requires Connected(pairs, a, b) && Connected(pairs, b, c)
    ensures Connected(pairs, a, c)
  {
    var p :| Path(pairs, p, a, b);
    var q :| Path(pairs, q, b, c);
    var r := p + q[1..];
    assert Path(pairs, r, a, c) by {
      forall i | 0 < i < |r|
        ensures Joined(pairs, r[i - 1], r[i])
      {
        if |p| <= i {
          assert r[i] == q[i - |p| + 1] && r[i - 1] == q[i - |p|];
        }
      }
    }
  }

  lemma ConnectedBackwards(pairs: Pairs, a: int, b: int)
    requires Connected(pairs, a, b)
    ensures Connected(pairs, b, a)
  {
    var p :| Path(pairs, p, a, b);
    var r := seq(|p|, i requires 0 <= i < |p| => p[|p| - 1 - i]);
    assert Path(pairs, r, b, a) by {
      forall i | 0 < i < |r|
        ensures Joined(pairs, r[i - 1], r[i])
      {
        assert Joined(pairs, p[|p| - 1 - i], p[|p| - i]);
      }
    }
  }

  lemma ConnectedStays(pairs: Pairs, more: Pairs, a: int, b: int)
    requires pairs <= more && Connected(pairs, a, b)
    ensures Connected(more, a, b)
  {
    var p :| Path(pairs, p, a, b);
    assert Path(more, p, a, b) by {
      forall i | 0 < i < |p|
        ensures Joined(more, p[i - 1], p[i])
      {
        assert Joined(pairs, p[i - 1], p[i]);
      }
    }
  }
}
