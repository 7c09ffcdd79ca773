/** Which of some tracks can be merged: `can_merge_tracks` of acoustid/data/track.py. */
module MergeGroups {
  import opened Closure
  import opened Sets

  const TRACK_GROUP_MERGE_THRESHOLD := 0.4
  const FINGERPRINT_MAX_LENGTH_DIFF := 7

  /** A row of the similarity query: two tracks, the largest difference of length and the
      smallest score between the fingerprints compared. */
  datatype Row = Row(a: int, b: int, lengthDiff: int, score: real)

  predicate Accepted(row: Row) {
    !(row.score < TRACK_GROUP_MERGE_THRESHOLD) && !(row.lengthDiff > FINGERPRINT_MAX_LENGTH_DIFF)
  }

  predicate Before(r: Row, s: Row) {
    r.a < s.a || (r.a == s.a && r.b < s.b)
  }

  /** What the query promises: `fp1.track_id < fp2.track_id`, one row a pair, and
      `order by fp1.track_id, fp2.track_id`. */
  ghost predicate Ordered(rows: seq<Row>) {
    && (forall i :: 0 <= i < |rows| ==> rows[i].a < rows[i].b)
    && (forall i, j :: 0 <= i < j < |rows| ==> Before(rows[i], rows[j]))
  }

  // ----- what the groups are ----------------------------------------------------------

  /** The last accepted pair that ends in a track makes the other track its parent. */
  function Parent(rows: seq<Row>, x: int): (p: int) {
    if rows == [] then x
    else
      var last := rows[|rows| - 1];
      if Accepted(last) && last.b == x then last.a else Parent(rows[..|rows| - 1], x)
  }

  lemma {:induction false} ParentIsSmaller(rows: seq<Row>, x: int)
    requires Ordered(rows)
    ensures Parent(rows, x) <= x
    ensures Parent(rows, x) != x <==> exists i :: 0 <= i < |rows| && Accepted(rows[i]) && rows[i].b == x
    ensures Parent(rows, x) != x ==> Links(rows, Parent(rows, x), x)
  {
    if rows != [] {
      var init := rows[..|rows| - 1];
      ParentIsSmaller(init, x);
      if Parent(init, x) != x {
        var i :| 0 <= i < |init| && Accepted(init[i]) && init[i].a == Parent(init, x) && init[i].b == x;
        assert rows[i] == init[i];
      }
      assert forall i :: 0 <= i < |rows| - 1 ==> init[i] == rows[i];
    }
  }

  /** The pair was accepted. */
  ghost predicate Links(rows: seq<Row>, a: int, b: int) {
    exists i :: 0 <= i < |rows| && Accepted(rows[i]) && rows[i].a == a && rows[i].b == b
  }

  /** The end of the chain of parents. */
  ghost function Root(rows: seq<Row>, x: int): int
    requires Ordered(rows)
    decreases Rank(rows, x)
  {
    ParentIsSmaller(rows, x);
    if Parent(rows, x) == x then x
    else
      RankFalls(rows, Parent(rows, x), x);
      Root(rows, Parent(rows, x))
  }

  ghost function Firsts(rows: seq<Row>, x: int): set<int> {
    set i | 0 <= i < |rows| && rows[i].a < x :: rows[i].a
  }

  ghost function Rank(rows: seq<Row>, x: int): nat {
    |Firsts(rows, x)|
  }

  lemma RankFalls(rows: seq<Row>, a: int, x: int)
    requires Ordered(rows) && Links(rows, a, x)
    ensures Rank(rows, a) < Rank(rows, x)
  {
    var i :| 0 <= i < |rows| && rows[i].a == a && rows[i].b == x;
    assert rows[i].a in Firsts(rows, x);
    assert Firsts(rows, a) < Firsts(rows, x);
    SubsetIsNoLarger(Firsts(rows, a), Firsts(rows, x));
  }

  function Mentioned(rows: seq<Row>): set<int> {
    (set i | 0 <= i < |rows| :: rows[i].a) + (set i | 0 <= i < |rows| :: rows[i].b)
  }

  /** The tracks that are merged into another. */
  function Merged(rows: seq<Row>): set<int> {
    set x | x in Mentioned(rows) && Parent(rows, x) != x
  }

  ghost function Roots(rows: seq<Row>): set<int>
    requires Ordered(rows)
  {
    set x | x in Merged(rows) :: Root(rows, x)
  }

  /** Everything that leads to a root, and the root itself. */
  ghost function GroupOf(rows: seq<Row>, root: int): set<int>
    requires Ordered(rows)
  {
    {root} + set x | x in Merged(rows) && Root(rows, x) == root
  }

  ghost function Groups(rows: seq<Row>): set<set<int>>
    requires Ordered(rows)
  {
    set root | root in Roots(rows) :: GroupOf(rows, root)
  }

  // ----- the loop -----------------------------------------------------------------------

  /** The dictionary after some rows: who is merged, and into which root. */
  ghost predicate Records(rows: seq<Row>, merges: map<int, int>) {
    Ordered(rows) &&
    forall x :: (x in merges <==> Parent(rows, x) != x) && (x in merges ==> merges[x] == Root(rows, x))
  }

  /** `can_merge_tracks`, once it has the rows. */
  method CanMergeTracks(rows: seq<Row>) returns (result: set<set<int>>)
    requires Ordered(rows)
    ensures result == Groups(rows)
  {
    hide Ordered, Records, Roots, Groups, GroupOf;
    var merges: map<int, int> := map[];
    NoRecords();
    for i := 0 to |rows|
      invariant Records(rows[..i], merges)
    {
      var row := rows[i];
      assert rows[..i + 1] == rows[..i] + [row];
      OrderedSoFar(rows, i);
      if !(row.score < TRACK_GROUP_MERGE_THRESHOLD) && !(row.lengthDiff > FINGERPRINT_MAX_LENGTH_DIFF) {
        var group := row.a;
        if group in merges {
          group := merges[group];
        }
        OneMoreRecord(rows[..i], merges, row);
        merges := merges[row.b := group];
      } else {
        NoMoreRecords(rows[..i], merges, row);
      }
    }
    assert rows[..|rows|] == rows;
    result := CollectGroups(rows, merges);
  }

  /** The last loop: one set for each value of the dictionary. */
  method CollectGroups(ghost rows: seq<Row>, merges: map<int, int>) returns (result: set<set<int>>)
    requires Records(rows, merges)
    ensures Ordered(rows) && result == Groups(rows)
  {
    hide Records, Groups, GroupOf, Ordered;
    RecordedRoots(rows, merges);
    var roots := merges.Values;
    var todo := roots;
    result := {};
    while todo != {}
      invariant todo <= roots
      invariant result == GroupsOf(rows, roots - todo)
      decreases todo
    {
      ghost var _ := SomeElement(todo);
      var group :| group in todo;
      RecordedGroup(rows, merges, group);
      GroupsOfOneMore(rows, roots - todo, group);
      assert roots - (todo - {group}) == roots - todo + {group};
      result := result + {{group} + MergedInto(merges, group)};
      todo := todo - {group};
    }
    assert roots - {} == roots;
    GroupsOfRoots(rows);
  }

  ghost function GroupsOf(rows: seq<Row>, roots: set<int>): set<set<int>>
    requires Ordered(rows)
  {
    set root | root in roots :: GroupOf(rows, root)
  }

  lemma GroupsOfOneMore(rows: seq<Row>, roots: set<int>, root: int)
    requires Ordered(rows)
    ensures GroupsOf(rows, roots + {root}) == GroupsOf(rows, roots) + {GroupOf(rows, root)}
  {
    hide Ordered, GroupOf;
    assert forall r :: r in roots + {root} <==> r in roots || r == root;
  }

  lemma GroupsOfRoots(rows: seq<Row>)
    requires Ordered(rows)
    ensures GroupsOf(rows, Roots(rows)) == Groups(rows)
  {
    hide Ordered, GroupOf, Roots;
  }

  lemma NoRecords()
    ensures Records([], map[])
  {
  }

  lemma OrderedSoFar(rows: seq<Row>, i: nat)
    requires Ordered(rows) && i < |rows|
    ensures Ordered(rows[..i]) && Ordered(rows[..i] + [rows[i]])
  {
  }

  /** The rows still to come end in no track that already has something merged into it, so
      they move none of the roots found so far. This is where the order matters. */
  lemma {:induction false} RootIsFinal(rows: seq<Row>, row: Row, x: int)
    requires Ordered(rows) && Ordered(rows + [row]) && (Accepted(row) ==> x != row.b)
    ensures Root(rows + [row], x) == Root(rows, x)
    decreases Rank(rows, x)
  {
    hide Ordered, Accepted, Links;
    ParentAfter(rows, row, x);
    ParentIsSmaller(rows, x);
    var p := Parent(rows, x);
    if p != x {
      RankFalls(rows, p, x);
      FirstIsNoEnd(rows, row, p, x);
      RootIsFinal(rows, row, p);
      RootOfParent(rows, x);
      RootOfParent(rows + [row], x);
    }
  }

  lemma ParentAfter(rows: seq<Row>, row: Row, x: int)
    ensures Parent(rows + [row], x) == if Accepted(row) && row.b == x then row.a else Parent(rows, x)
  {
    assert (rows + [row])[..|rows|] == rows;
  }

  lemma FirstIsNoEnd(rows: seq<Row>, row: Row, p: int, x: int)
    requires Ordered(rows + [row]) && Links(rows, p, x)
    ensures p != row.b
  {
    var i :| 0 <= i < |rows| && rows[i].a == p;
    assert (rows + [row])[i] == rows[i] && (rows + [row])[|rows|] == row;
    assert Before(rows[i], row);
  }

  lemma RootOfParent(rows: seq<Row>, x: int)
    requires Ordered(rows)
    ensures Root(rows, x) == if Parent(rows, x) == x then x else Root(rows, Parent(rows, x))
  {
  }

  lemma OneMoreRecord(rows: seq<Row>, merges: map<int, int>, row: Row)
    requires Records(rows, merges) && Ordered(rows + [row]) && Accepted(row)
    ensures Records(rows + [row], merges[row.b := if row.a in merges then merges[row.a] else row.a])
  {
    hide Accepted, Ordered, Parent, Root;
    LastIsAscending(rows, row);
    forall x
      ensures Parent(rows + [row], x) == if row.b == x then row.a else Parent(rows, x)
      ensures x != row.b ==> Root(rows + [row], x) == Root(rows, x)
    {
      ParentAfter(rows, row, x);
      if x != row.b {
        RootIsFinal(rows, row, x);
      }
    }
    RootOfParent(rows, row.a);
    RootOfParent(rows + [row], row.b);
    assert Root(rows + [row], row.b) == Root(rows, row.a);
  }

  lemma LastIsAscending(rows: seq<Row>, row: Row)
    requires Ordered(rows + [row])
    ensures row.a < row.b
  {
    assert (rows + [row])[|rows|] == row;
  }

  lemma NoMoreRecords(rows: seq<Row>, merges: map<int, int>, row: Row)
    requires Records(rows, merges) && Ordered(rows + [row]) && !Accepted(row)
    ensures Records(rows + [row], merges)
  {
    hide Accepted, Ordered, Parent, Root;
    forall x
      ensures Parent(rows + [row], x) == Parent(rows, x) && Root(rows + [row], x) == Root(rows, x)
    {
      ParentAfter(rows, row, x);
      RootIsFinal(rows, row, x);
    }
  }

  lemma MergedIsMentioned(rows: seq<Row>, x: int)
    requires Ordered(rows)
    ensures x in Merged(rows) <==> Parent(rows, x) != x
  {
    ParentIsSmaller(rows, x);
  }

  lemma KeyOf<K, V>(m: map<K, V>, v: V) returns (k: K)
    requires v in m.Values
    ensures k in m && m[k] == v
  {
    k :| k in m && m[k] == v;
  }

  function MergedInto(merges: map<int, int>, group: int): set<int> {
    set x | x in merges && merges[x] == group
  }

  lemma RecordedRoots(rows: seq<Row>, merges: map<int, int>)
    requires Records(rows, merges)
    ensures Ordered(rows) && merges.Values == Roots(rows)
  {
    hide Ordered, Mentioned, Parent, Root, Merged;
    forall x
      ensures x in Merged(rows) <==> Parent(rows, x) != x
    {
      MergedIsMentioned(rows, x);
    }
    forall v | v in merges.Values
      ensures v in Roots(rows)
    {
      var x := KeyOf(merges, v);
      assert x in Merged(rows);
    }
    forall v | v in Roots(rows)
      ensures v in merges.Values
    {
      var x :| x in Merged(rows) && Root(rows, x) == v;
      assert merges[x] == v;
    }
  }

  lemma RecordedGroup(rows: seq<Row>, merges: map<int, int>, root: int)
    requires Records(rows, merges) && Ordered(rows)
    ensures GroupOf(rows, root) == {root} + MergedInto(merges, root)
  {
    hide Ordered, Mentioned, Parent, Root, Merged;
    forall x
      ensures x in Merged(rows) <==> Parent(rows, x) != x
    {
      MergedIsMentioned(rows, x);
    }
    assert forall x :: x in GroupOf(rows, root) <==> x in {root} + MergedInto(merges, root);
  }

  // ----- what the groups are worth ------------------------------------------------------

  /** Up from a track to its root over accepted pairs, without leaving the group. */
  ghost predicate Climbs(rows: seq<Row>, group: set<int>, path: seq<int>, x: int, root: int) {
    && |path| > 0 && path[0] == x && path[|path| - 1] == root
    && (forall i :: 0 <= i < |path| ==> path[i] in group)
    && (forall i :: 0 < i < |path| ==> Links(rows, path[i], path[i - 1]))
  }

  ghost predicate LinkedWithin(rows: seq<Row>, group: set<int>, x: int, root: int) {
    exists path :: Climbs(rows, group, path, x, root)
  }

  lemma {:induction false} RootIsRoot(rows: seq<Row>, x: int)
    requires Ordered(rows)
    ensures Root(rows, x) <= x && Parent(rows, Root(rows, x)) == Root(rows, x)
    ensures Root(rows, x) == x <==> Parent(rows, x) == x
    decreases Rank(rows, x)
  {
    hide Ordered, Links;
    ParentIsSmaller(rows, x);
    if Parent(rows, x) != x {
      RankFalls(rows, Parent(rows, x), x);
      RootIsRoot(rows, Parent(rows, x));
      RootOfParent(rows, x);
    }
  }

  lemma InGroupIff(rows: seq<Row>, root: int, x: int)
    requires Ordered(rows) && root in Roots(rows)
    ensures x in GroupOf(rows, root) <==> Root(rows, x) == root
  {
    hide Ordered, Mentioned, Links;
    var y :| y in Merged(rows) && Root(rows, y) == root;
    RootIsRoot(rows, y);
    RootIsRoot(rows, root);
    RootIsRoot(rows, x);
    MergedIsMentioned(rows, x);
  }

  lemma {:induction false} MembersClimb(rows: seq<Row>, root: int, x: int)
    requires Ordered(rows) && root in Roots(rows) && x in GroupOf(rows, root)
    ensures LinkedWithin(rows, GroupOf(rows, root), x, root)
    decreases Rank(rows, x)
  {
    hide Ordered, Links, GroupOf, Roots;
    InGroupIff(rows, root, x);
    ParentIsSmaller(rows, x);
    RootOfParent(rows, x);
    var p := Parent(rows, x);
    if p == x {
      assert Climbs(rows, GroupOf(rows, root), [x], x, root);
    } else {
      RankFalls(rows, p, x);
      InGroupIff(rows, root, p);
      MembersClimb(rows, root, p);
      var path :| Climbs(rows, GroupOf(rows, root), path, p, root);
      assert Climbs(rows, GroupOf(rows, root), [x] + path, x, root);
    }
  }

  /** Each group has two tracks at least, its root is the smallest of them, and accepted
      pairs within the group lead from every member to the root. */
  lemma GroupsAreLinked(rows: seq<Row>, root: int)
    requires Ordered(rows) && root in Roots(rows)
    ensures
      var group := GroupOf(rows, root);
      && root in group && |group| >= 2
      && (forall x :: x in group ==> root <= x && LinkedWithin(rows, group, x, root))
  {
    hide Ordered, Links, LinkedWithin, Merged;
    var group := GroupOf(rows, root);
    var y :| y in Merged(rows) && Root(rows, y) == root;
    MergedIsMentioned(rows, y);
    RootIsRoot(rows, y);
    assert {root, y} <= group && root != y;
    assert |group| == |{root, y}| + |group - {root, y}| by {
      assert group == {root, y} + (group - {root, y});
    }
    forall x | x in group
      ensures root <= x && LinkedWithin(rows, group, x, root)
    {
      InGroupIff(rows, root, x);
      RootIsRoot(rows, x);
      MembersClimb(rows, root, x);
    }
  }

  /** No track is in two groups. */
  lemma GroupsAreDisjoint(rows: seq<Row>, g: set<int>, h: set<int>)
    requires Ordered(rows) && g in Groups(rows) && h in Groups(rows)
    ensures g == h || g !! h
  {
    hide Ordered, Roots, GroupOf, Root;
    var r :| r in Roots(rows) && g == GroupOf(rows, r);
    var q :| q in Roots(rows) && h == GroupOf(rows, q);
    forall x
      ensures x in g <==> Root(rows, x) == r
      ensures x in h <==> Root(rows, x) == q
    {
      InGroupIff(rows, r, x);
      InGroupIff(rows, q, x);
    }
    if r != q {
      assert forall x :: !(x in g && x in h);
    }
  }

  ghost predicate Together(rows: seq<Row>, a: int, b: int)
    requires Ordered(rows)
  {
    exists root :: root in Roots(rows) && a in GroupOf(rows, root) && b in GroupOf(rows, root)
  }

  lemma TogetherIffSameRoot(rows: seq<Row>, a: int, b: int)
    requires Ordered(rows) && Links(rows, a, b)
    ensures Together(rows, a, b) <==> Root(rows, a) == Root(rows, b)
  {
    hide Ordered, Roots, GroupOf, Root;
    var i :| 0 <= i < |rows| && Accepted(rows[i]) && rows[i].a == a && rows[i].b == b;
    EndIsMerged(rows, i);
    forall root | root in Roots(rows)
      ensures a in GroupOf(rows, root) && b in GroupOf(rows, root) <==> Root(rows, a) == root == Root(rows, b)
    {
      InGroupIff(rows, root, a);
      InGroupIff(rows, root, b);
    }
  }

  lemma EndIsMerged(rows: seq<Row>, i: nat)
    requires Ordered(rows) && i < |rows| && Accepted(rows[i])
    ensures Parent(rows, rows[i].b) != rows[i].b && Root(rows, rows[i].b) in Roots(rows)
  {
    ParentIsSmaller(rows, rows[i].b);
    MergedIsMentioned(rows, rows[i].b);
  }

  // ----- when no accepted pair is split ---------------------------------------------------

  /** The accepted pairs whose tracks are all below a bound. */
  function PairsBelow(rows: seq<Row>, bound: int): Pairs {
    set i | 0 <= i < |rows| && Accepted(rows[i]) && rows[i].b < bound :: (rows[i].a, rows[i].b)
  }

  /** Any two accepted partners of a track with lower ids are connected by accepted pairs
      among the tracks below it. */
  ghost predicate PartnersAreConnected(rows: seq<Row>) {
    forall i, j :: 0 <= i < |rows| && 0 <= j < |rows| && Accepted(rows[i]) && Accepted(rows[j]) && rows[i].b == rows[j].b ==>
      Connected(PairsBelow(rows, rows[i].b), rows[i].a, rows[j].a)
  }

  lemma LinkIsBelow(rows: seq<Row>, a: int, b: int, bound: int)
    requires Ordered(rows) && Links(rows, a, b) && b < bound
    ensures a < b && (a, b) in PairsBelow(rows, bound)
  {
  }

  /** A track is connected to its root by the pairs below anything above it. */
  lemma {:induction false} ConnectedToRoot(rows: seq<Row>, x: int, bound: int)
    requires Ordered(rows) && x < bound
    ensures Connected(PairsBelow(rows, bound), x, Root(rows, x))
    decreases Rank(rows, x)
  {
    hide Ordered, Links, Connected, PairsBelow;
    ParentIsSmaller(rows, x);
    RootOfParent(rows, x);
    var p := Parent(rows, x);
    if p == x {
      ConnectedToItself(PairsBelow(rows, bound), x);
    } else {
      RankFalls(rows, p, x);
      ConnectedToRoot(rows, p, bound);
      LinkIsBelow(rows, p, x, bound);
      JoinedIsConnected(PairsBelow(rows, bound), x, p);
      ConnectedTransitively(PairsBelow(rows, bound), x, p, Root(rows, x));
    }
  }

  /** The second tracks up to one of them. */
  ghost function Seconds(rows: seq<Row>, bound: int): set<int> {
    set i | 0 <= i < |rows| && rows[i].b <= bound :: rows[i].b
  }

  lemma SecondsGrow(rows: seq<Row>, i: nat, bound: int)
    requires i < |rows| && rows[i].b == bound
    ensures forall b :: b < bound ==> |Seconds(rows, b)| < |Seconds(rows, bound)|
  {
    forall b | b < bound
      ensures |Seconds(rows, b)| < |Seconds(rows, bound)|
    {
      assert bound in Seconds(rows, bound) && bound !in Seconds(rows, b);
      SubsetIsNoLarger(Seconds(rows, b), Seconds(rows, bound));
    }
  }

  /** With connected partners, both tracks of an accepted pair have one root. */
  lemma {:induction false} PairHasOneRoot(rows: seq<Row>, i: nat)
    requires Ordered(rows) && PartnersAreConnected(rows) && i < |rows| && Accepted(rows[i])
    ensures Root(rows, rows[i].a) == Root(rows, rows[i].b)
    decreases |Seconds(rows, rows[i].b)|, 1
  {
    hide Ordered, Links, Seconds, Connected, PairsBelow, Root, Parent;
    var a, b := rows[i].a, rows[i].b;
    EndIsMerged(rows, i);
    ParentIsSmaller(rows, b);
    RootOfParent(rows, b);
    var j := RowOfLink(rows, Parent(rows, b), b);
    assert Connected(PairsBelow(rows, b), a, Parent(rows, b));
    ConnectedHaveOneRoot(rows, i, a, Parent(rows, b));
  }

  lemma RowOfLink(rows: seq<Row>, a: int, b: int) returns (i: nat)
    requires Links(rows, a, b)
    ensures i < |rows| && Accepted(rows[i]) && rows[i].a == a && rows[i].b == b
  {
    i :| 0 <= i < |rows| && Accepted(rows[i]) && rows[i].a == a && rows[i].b == b;
  }

  lemma {:induction false} ConnectedHaveOneRoot(rows: seq<Row>, i: nat, x: int, y: int)
    requires Ordered(rows) && PartnersAreConnected(rows) && i < |rows| && Accepted(rows[i])
    requires Connected(PairsBelow(rows, rows[i].b), x, y)
    ensures Root(rows, x) == Root(rows, y)
    decreases |Seconds(rows, rows[i].b)|, 0
  {
    hide Ordered, PartnersAreConnected, Seconds, Root;
    var bound := rows[i].b;
    forall k | 0 <= k < |rows| && Accepted(rows[k]) && rows[k].b < bound
      ensures Root(rows, rows[k].a) == Root(rows, rows[k].b)
    {
      SecondsGrow(rows, i, bound);
      PairHasOneRoot(rows, k);
    }
    var path :| Path(PairsBelow(rows, bound), path, x, y);
    PathHasOneRoot(rows, bound, path, x, y);
  }

  lemma {:induction false} PathHasOneRoot(rows: seq<Row>, bound: int, path: seq<int>, x: int, y: int)
    requires Ordered(rows) && Path(PairsBelow(rows, bound), path, x, y)
    requires forall k :: 0 <= k < |rows| && Accepted(rows[k]) && rows[k].b < bound ==>
               Root(rows, rows[k].a) == Root(rows, rows[k].b)
    ensures Root(rows, x) == Root(rows, y)
    decreases |path|
  {
    hide Ordered, Root;
    if |path| > 1 {
      var tail := path[1..];
      assert Joined(PairsBelow(rows, bound), path[0], path[1]);
      assert forall k :: 0 < k < |tail| ==> tail[k - 1] == path[k] && tail[k] == path[k + 1] && Joined(PairsBelow(rows, bound), path[k], path[k + 1]);
      PathHasOneRoot(rows, bound, tail, path[1], y);
    }
  }

  /** Every accepted pair ends up in one group exactly if the partners of each track are
      connected among the tracks below it: a pair is split when a track has two accepted
      partners that nothing below it brings together. */
  lemma PairsAreTogetherIff(rows: seq<Row>)
    requires Ordered(rows)
    ensures (forall i :: 0 <= i < |rows| && Accepted(rows[i]) ==> Together(rows, rows[i].a, rows[i].b))
       <==> PartnersAreConnected(rows)
  {
    hide Ordered, Root, Connected, PairsBelow, Together;
    forall i | 0 <= i < |rows| && Accepted(rows[i])
      ensures Together(rows, rows[i].a, rows[i].b) <==> Root(rows, rows[i].a) == Root(rows, rows[i].b)
    {
      assert Links(rows, rows[i].a, rows[i].b);
      TogetherIffSameRoot(rows, rows[i].a, rows[i].b);
    }
    if PartnersAreConnected(rows) {
      forall i | 0 <= i < |rows| && Accepted(rows[i])
        ensures Root(rows, rows[i].a) == Root(rows, rows[i].b)
      {
        PairHasOneRoot(rows, i);
      }
    }
    if forall i :: 0 <= i < |rows| && Accepted(rows[i]) ==> Together(rows, rows[i].a, rows[i].b) {
      forall i, j | 0 <= i < |rows| && 0 <= j < |rows| && Accepted(rows[i]) && Accepted(rows[j]) && rows[i].b == rows[j].b
        ensures Connected(PairsBelow(rows, rows[i].b), rows[i].a, rows[j].a)
      {
        SameRootIsConnected(rows, i, j);
      }
    }
  }

  lemma SameRootIsConnected(rows: seq<Row>, i: nat, j: nat)
    requires Ordered(rows) && i < |rows| && j < |rows| && rows[i].b == rows[j].b
    requires Root(rows, rows[i].a) == Root(rows, rows[j].a)
    ensures Connected(PairsBelow(rows, rows[i].b), rows[i].a, rows[j].a)
  {
    hide Connected, PairsBelow, Root;
    var pairs, root := PairsBelow(rows, rows[i].b), Root(rows, rows[i].a);
    ConnectedToRoot(rows, rows[i].a, rows[i].b);
    ConnectedToRoot(rows, rows[j].a, rows[j].b);
    ConnectedBackwards(pairs, rows[j].a, root);
    ConnectedTransitively(pairs, rows[i].a, root, rows[j].a);
  }

  /** So the first track of an accepted pair can be left without a group. */
  lemma FirstPartnerIsLeftOut()
    ensures
      var rows := [Row(1, 3, 0, 1.0), Row(2, 3, 0, 1.0)];
      Ordered(rows) && Accepted(rows[0]) && Groups(rows) == {{2, 3}}
  {
    var rows := [Row(1, 3, 0, 1.0), Row(2, 3, 0, 1.0)];
    assert rows == ([] + [rows[0]]) + [rows[1]];
    forall x
      ensures Parent(rows, x) == if x == 3 then 2 else x
    {
      ParentAfter([], rows[0], x);
      ParentAfter([] + [rows[0]], rows[1], x);
    }
    RootOfParent(rows, 3);
    RootOfParent(rows, 2);
    assert Root(rows, 3) == 2;
    assert Mentioned(rows) == {1, 2, 3} by {
      assert rows[0].a in Mentioned(rows) && rows[1].a in Mentioned(rows) && rows[1].b in Mentioned(rows);
    }
    assert Merged(rows) == {3};
    assert Roots(rows) == {2};
    assert GroupOf(rows, 2) == {2, 3};
    assert 2 in Roots(rows);
  }

  // ----- what the query compares ----------------------------------------------------------

  datatype Fingerprint = Fingerprint(id: int, track: int, length: int, data: seq<int>)

  type Score = (seq<int>, seq<int>) -> real

  ghost predicate Symmetric(score: Score) {
    forall x, y :: score(x, y) == score(y, x)
  }

  function Abs(x: int): int {
    if x < 0 then -x else x
  }

  /** `fp1.id < fp2.id and fp1.track_id < fp2.track_id` */
  predicate Compared(f: Fingerprint, g: Fingerprint) {
    f.id < g.id && f.track < g.track
  }

  /** A row of `select track_id, track_id, max(abs(length - length)), min(score) ... group by`. */
  ghost predicate IsRow(fps: set<Fingerprint>, score: Score, row: Row) {
    && (exists f, g :: f in fps && g in fps && Compared(f, g) && f.track == row.a && g.track == row.b)
    && (forall f, g :: f in fps && g in fps && Compared(f, g) && f.track == row.a && g.track == row.b ==>
          row.score <= score(f.data, g.data) && Abs(f.length - g.length) <= row.lengthDiff)
    && (exists f, g :: f in fps && g in fps && Compared(f, g) && f.track == row.a && g.track == row.b
          && row.score == score(f.data, g.data))
    && (exists f, g :: f in fps && g in fps && Compared(f, g) && f.track == row.a && g.track == row.b
          && row.lengthDiff == Abs(f.length - g.length))
  }

  predicate Alike(score: Score, f: Fingerprint, g: Fingerprint) {
    score(f.data, g.data) >= TRACK_GROUP_MERGE_THRESHOLD && Abs(f.length - g.length) <= FINGERPRINT_MAX_LENGTH_DIFF
  }

  /** A pair of tracks is accepted exactly if all the fingerprints compared are alike. */
  lemma AcceptedIffAlike(fps: set<Fingerprint>, score: Score, row: Row)
    requires IsRow(fps, score, row)
    ensures Accepted(row) <==>
      forall f, g :: f in fps && g in fps && Compared(f, g) && f.track == row.a && g.track == row.b ==> Alike(score, f, g)
  {
    if Accepted(row) {
      assert row.score >= TRACK_GROUP_MERGE_THRESHOLD;
    } else if row.score < TRACK_GROUP_MERGE_THRESHOLD {
      var f, g :| f in fps && g in fps && Compared(f, g) && f.track == row.a && g.track == row.b
                  && row.score == score(f.data, g.data);
      assert !Alike(score, f, g);
    } else {
      var f, g :| f in fps && g in fps && Compared(f, g) && f.track == row.a && g.track == row.b
                  && row.lengthDiff == Abs(f.length - g.length);
      assert !Alike(score, f, g);
    }
  }

  /** Every fingerprint of the one track is like every fingerprint of the other. */
  ghost predicate AllAlike(fps: set<Fingerprint>, score: Score, a: int, b: int) {
    forall f, g :: f in fps && g in fps && f.track == a && g.track == b ==> Alike(score, f, g)
  }

  /** Where the track with the lower id has the fingerprint with the higher one, the query
      skips the pair. */
  predicate IsSkipped(f: Fingerprint, g: Fingerprint, a: int, b: int) {
    f.track == a && g.track == b && f.id > g.id
  }

  ghost predicate NoneSkipped(fps: set<Fingerprint>, a: int, b: int) {
    forall f, g :: f in fps && g in fps ==> !IsSkipped(f, g, a, b)
  }

  /** Ids are primary keys. */
  ghost predicate IdsUnique(fps: set<Fingerprint>) {
    forall f, g :: f in fps && g in fps && f.id == g.id ==> f == g
  }

  /** The same fingerprints by id and track, whatever their lengths and contents. */
  ghost predicate SameShape(fps: set<Fingerprint>, fps': set<Fingerprint>) {
    && IdsUnique(fps')
    && (forall f :: f in fps ==> exists f' :: f' in fps' && f'.id == f.id && f'.track == f.track)
    && (forall f' :: f' in fps' ==> exists f :: f in fps && f.id == f'.id && f.track == f'.track)
  }

  /** Acceptance covers all the fingerprints. */
  ghost predicate Covers(fps: set<Fingerprint>, score: Score, row: Row) {
    IsRow(fps, score, row) && Accepted(row) ==> AllAlike(fps, score, row.a, row.b)
  }

  /** It does so whatever the fingerprints contain and however they score. */
  ghost predicate AlwaysCovers(fps: set<Fingerprint>, a: int, b: int) {
    forall fps': set<Fingerprint>, score: Score, row: Row ::
      SameShape(fps, fps') && row.a == a && row.b == b ==> Covers(fps', score, row)
  }

  /** Acceptance covers all fingerprints of two tracks, for all lengths, contents and scores,
      exactly if the query skips no pair of them. */
  lemma AcceptanceCoversIff(fps: set<Fingerprint>, a: int, b: int)
    requires a < b && IdsUnique(fps)
    requires exists f, g :: f in fps && g in fps && Compared(f, g) && f.track == a && g.track == b
    ensures AlwaysCovers(fps, a, b) <==> NoneSkipped(fps, a, b)
  {
    hide Covers, SameShape, IsRow, IdsUnique, Compared;
    if NoneSkipped(fps, a, b) {
      forall fps': set<Fingerprint>, score: Score, row: Row | SameShape(fps, fps') && row.a == a && row.b == b
        ensures Covers(fps', score, row)
      {
        NothingSkippedCovers(fps, fps', score, row);
      }
    } else {
      hide AlwaysCovers;
      var f, g :| f in fps && g in fps && IsSkipped(f, g, a, b);
      SkippedPairIsNotSeen(fps, f, g, a, b);
      CounterexampleRefutes(fps, a, b, Relabelled(fps), OneUnlike(f.id, g.id), Row(a, b, 0, 1.0));
    }
  }

  lemma CounterexampleRefutes(fps: set<Fingerprint>, a: int, b: int, fps': set<Fingerprint>, score: Score, row: Row)
    requires SameShape(fps, fps') && row.a == a && row.b == b && !Covers(fps', score, row)
    ensures !AlwaysCovers(fps, a, b)
  {
    hide SameShape, Covers;
  }

  lemma NothingSkippedCovers(fps: set<Fingerprint>, fps': set<Fingerprint>, score: Score, row: Row)
    requires SameShape(fps, fps') && row.a < row.b && NoneSkipped(fps, row.a, row.b)
    ensures Covers(fps', score, row)
  {
    hide IsRow, Accepted;
    if IsRow(fps', score, row) && Accepted(row) {
      AcceptedIffAlike(fps', score, row);
      forall f', g' | f' in fps' && g' in fps' && f'.track == row.a && g'.track == row.b
        ensures Alike(score, f', g')
      {
        var f :| f in fps && f.id == f'.id && f.track == f'.track;
        var g :| g in fps && g.id == g'.id && g.track == g'.track;
        assert !IsSkipped(f, g, row.a, row.b);
      }
    }
  }

  /** Every fingerprint with its id for content, and one length for all. */
  function Relabelled(fps: set<Fingerprint>): set<Fingerprint> {
    set f | f in fps :: Labelled(f)
  }

  function Labelled(f: Fingerprint): Fingerprint {
    Fingerprint(f.id, f.track, 100, [f.id])
  }

  /** Nothing is unlike anything, but for two contents. */
  function OneUnlike(x: int, y: int): Score {
    (s, t) => if (s == [x] && t == [y]) || (s == [y] && t == [x]) then 0.0 else 1.0
  }

  lemma RelabelledShape(fps: set<Fingerprint>)
    requires IdsUnique(fps)
    ensures SameShape(fps, Relabelled(fps))
    ensures forall f :: f in fps ==> Labelled(f) in Relabelled(fps)
  {
    forall f | f in fps
      ensures exists f' :: f' in Relabelled(fps) && f'.id == f.id && f'.track == f.track
    {
      assert Labelled(f) in Relabelled(fps);
    }
  }

  /** A skipped pair that has nothing in common goes unseen, however many others agree. */
  lemma SkippedPairIsNotSeen(fps: set<Fingerprint>, f0: Fingerprint, g0: Fingerprint, a: int, b: int)
    requires a < b && IdsUnique(fps) && f0 in fps && g0 in fps && IsSkipped(f0, g0, a, b)
    requires exists f, g :: f in fps && g in fps && Compared(f, g) && f.track == a && g.track == b
    ensures
      var fps', score, row := Relabelled(fps), OneUnlike(f0.id, g0.id), Row(a, b, 0, 1.0);
      SameShape(fps, fps') && IsRow(fps', score, row) && Accepted(row) && !Covers(fps', score, row)
    ensures Symmetric(OneUnlike(f0.id, g0.id))
  {
    hide IsRow, SameShape, IdsUnique, Relabelled, Compared;
    var fps', score, row := Relabelled(fps), OneUnlike(f0.id, g0.id), Row(a, b, 0, 1.0);
    RelabelledShape(fps);
    RelabelledIsRow(fps, f0, g0, a, b);
    var f, g := Labelled(f0), Labelled(g0);
    assert f in fps' && g in fps' && score(f.data, g.data) == 0.0;
    assert !Alike(score, f, g);
  }

  lemma RelabelledIsRow(fps: set<Fingerprint>, f0: Fingerprint, g0: Fingerprint, a: int, b: int)
    requires a < b && IdsUnique(fps) && f0 in fps && g0 in fps && IsSkipped(f0, g0, a, b)
    requires exists f, g :: f in fps && g in fps && Compared(f, g) && f.track == a && g.track == b
    ensures IsRow(Relabelled(fps), OneUnlike(f0.id, g0.id), Row(a, b, 0, 1.0))
  {
    var fps', score := Relabelled(fps), OneUnlike(f0.id, g0.id);
    forall f', g' | f' in fps' && g' in fps' && Compared(f', g') && f'.track == a && g'.track == b
      ensures score(f'.data, g'.data) == 1.0 && Abs(f'.length - g'.length) == 0
    {
      assert f'.data[0] == f'.id && g'.data[0] == g'.id;
      assert [f0.id][0] == f0.id && [g0.id][0] == g0.id;
      assert f'.id == g0.id ==> f'.track == g0.track;
    }
    var f, g :| f in fps && g in fps && Compared(f, g) && f.track == a && g.track == b;
    assert Labelled(f) in fps' && Labelled(g) in fps' && Compared(Labelled(f), Labelled(g));
  }
}
