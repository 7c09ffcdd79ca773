/** What the merges of LinkTables promise, stated about their effect as a whole. */
module LinkLaws {
  import opened Sets
  import opened Wrappers
  import opened Links
  import opened LinkTables

  /** The votes a track has for a gid. */
  function Votes(rows: Rows, track: int, gid: int): int {
    SumCounts(rows, Group(rows, {track}, gid))
  }

  lemma SumOfOne(rows: Rows, id: nat)
    requires id in rows
    ensures SumCounts(rows, {id}) == rows[id].count
  {
    assert Least({id}) == id;
    assert {id} - {id} == {};
  }

  lemma VotesOfRow(rows: Rows, id: nat)
    requires Unique(rows) && id in rows
    ensures Votes(rows, rows[id].track, rows[id].gid) == rows[id].count
  {
    assert Group(rows, {rows[id].track}, rows[id].gid) == {id};
    SumOfOne(rows, id);
  }

  lemma NoVotes(rows: Rows, track: int, gid: int)
    requires NoRowAt(rows, track, gid)
    ensures Votes(rows, track, gid) == 0
  {
    assert Group(rows, {track}, gid) == {};
  }

  // ----- merging MBIDs ------------------------------------------------------------------

  /** On every track the target has the votes both had, and the source none. */
  lemma MbidVotesMove(t: Tables, t': Tables, source: int, target: int, track: int)
    requires Consistent(t) && Consistent(t') && source != target && MbidsMerged(t, t', source, target)
    ensures Votes(t'.rows, track, target) == Votes(t.rows, track, source) + Votes(t.rows, track, target)
    ensures Votes(t'.rows, track, source) == 0
  {
    hide Votes, LinksHanded, Counted, MergedIntoExists;
    if id :| id in t.rows && t.rows[id].track == track && t.rows[id].gid == source {
      assert id in WithGid(t.rows, source) && HandedTo(t.rows, t'.rows, id, target);
      var d := t'.rows[id].mergedInto.value;
      VotesOfRow(t.rows, id);
      VotesOfRow(t'.rows, id);
      VotesOfRow(t'.rows, d);
      if d in t.rows {
        VotesOfRow(t.rows, d);
      } else {
        NoVotes(t.rows, track, target);
      }
    } else {
      NothingMoves(t, t', source, target, track);
    }
  }

  /** A track without the source MBID keeps what it had. */
  lemma NothingMoves(t: Tables, t': Tables, source: int, target: int, track: int)
    requires Consistent(t) && Consistent(t') && source != target && MbidsMerged(t, t', source, target)
    requires NoRowAt(t.rows, track, source)
    ensures Votes(t'.rows, track, target) == Votes(t.rows, track, target)
    ensures Votes(t'.rows, track, source) == Votes(t.rows, track, source) == 0
  {
    hide Votes, LinksHanded, Counted, MergedIntoExists;
    assert !OnTrackOf(t.rows, WithGid(t.rows, source), track);
    NoVotes(t.rows, track, source);
    assert NoRowAt(t'.rows, track, source) by {
      forall id | id in t'.rows && t'.rows[id].track == track && t'.rows[id].gid == source
        ensures false
      {
        SourceRowsStay(t, t', source, target, id);
      }
    }
    NoVotes(t'.rows, track, source);
    if id :| id in t.rows && t.rows[id].track == track && t.rows[id].gid == target {
      assert t'.rows[id] == t.rows[id];
      VotesOfRow(t.rows, id);
      VotesOfRow(t'.rows, id);
    } else {
      NoVotes(t.rows, track, target);
      forall id | id in t'.rows
        ensures !(t'.rows[id].track == track && t'.rows[id].gid == target)
      {
        if id in t.rows {
          PlacesStay(t, t', source, target, id);
        }
      }
      NoVotes(t'.rows, track, target);
    }
  }

  lemma PlacesStay(t: Tables, t': Tables, source: int, target: int, id: nat)
    requires Unique(t.rows) && source != target && MbidsMerged(t, t', source, target) && id in t'.rows && id in t.rows
    ensures t'.rows[id].track == t.rows[id].track && t'.rows[id].gid == t.rows[id].gid
  {
    hide LinksHanded;
    var done := WithGid(t.rows, source);
    if id !in done && t'.rows[id] != t.rows[id] {
      var k :| k in done && k in t.rows && t.rows[k].track == t.rows[id].track;
      assert HandedTo(t.rows, t'.rows, k, target);
    }
  }

  lemma SourceRowsStay(t: Tables, t': Tables, source: int, target: int, id: nat)
    requires Unique(t.rows) && source != target && MbidsMerged(t, t', source, target)
    requires id in t'.rows && t'.rows[id].gid == source
    ensures id in t.rows && t.rows[id].gid == source && t.rows[id].track == t'.rows[id].track
    ensures HandedTo(t.rows, t'.rows, id, target)
  {
    hide LinksHanded;
    if id in t.rows {
      PlacesStay(t, t', source, target, id);
    }
    assert id in WithGid(t.rows, source);
  }

  /** What became of a source row: no votes, disabled, and merged into the one row of the
      target on its track. */
  lemma SourceIsRetired(t: Tables, t': Tables, source: int, target: int, id: nat)
    requires Consistent(t) && Consistent(t') && source != target && MbidsMerged(t, t', source, target)
    requires id in t'.rows && t'.rows[id].gid == source
    ensures t'.rows[id].count == 0 && t'.rows[id].disabled && CountIn(t'.sources, {id}) == 0
    ensures
      t'.rows[id].mergedInto.Some? &&
      forall d :: d in t'.rows ==>
        (t'.rows[d].track == t'.rows[id].track && t'.rows[d].gid == target <==> t'.rows[id].mergedInto == Some(d))
  {
    hide LinksHanded, RowsHanded;
    SourceRowsStay(t, t', source, target, id);
  }

  /** The target ends up enabled exactly if either was, with one exception: a target that had
      to be created is enabled even where the source was disabled. */
  lemma EnabledIfEitherWas(t: Tables, t': Tables, source: int, target: int, id: nat)
    requires Consistent(t) && source != target && MbidsMerged(t, t', source, target)
    requires id in t.rows && t.rows[id].gid == source
    ensures
      HandedTo(t.rows, t'.rows, id, target) &&
      var d := t'.rows[id].mergedInto.value;
      var eitherWas := !t.rows[id].disabled || (d in t.rows && !t.rows[d].disabled);
      (!t'.rows[d].disabled <==> eitherWas) <==> (d in t.rows || !t.rows[id].disabled)
  {
    hide LinksHanded;
    assert id in WithGid(t.rows, source);
  }

  /** One vote, its MBID disabled, then merged into an MBID the track did not have: the only
      MBID the track had was disabled, and the one it has got is enabled. */
  method DisabledSourceEnablesTarget() returns (table: LinkTable, ghost before: Tables, ghost id: nat)
    ensures fresh(table) && table.Valid() && MbidsMerged(before, table.Snapshot(), 10, 20)
    ensures before.rows == map[id := Link(5, 10, 1, true, None)]
    ensures id in table.rows && table.rows[id].mergedInto.Some?
    ensures
      var target := table.rows[id].mergedInto.value;
      target in table.rows && table.rows[target] == Link(5, 20, 1, false, None)
  {
    hide Consistent, LinksHanded;
    table := new LinkTable(true);
    ghost var empty := table.Snapshot();
    var ok;
    ok, id := table.InsertGid(5, 10, None, Some(7));
    assert Voted(empty, table.Snapshot(), id, 5, 10);
    assert table.rows == map[id := Link(5, 10, 1, false, None)];
    table.DisableMbid(10);
    before := table.Snapshot();
    assert before.rows == map[id := Link(5, 10, 1, true, None)];
    ok := table.MergeMbids(10, 20);
    assert ok && id in WithGid(before.rows, 10);
    assert HandedTo(before.rows, table.rows, id, 20);
  }

  /** A second run of the merge finds nothing in its way and changes nothing. */
  lemma MergingMbidsTwice(t0: Tables, t1: Tables, t2: Tables, source: int, target: int)
    requires Consistent(t0) && Consistent(t1) && Consistent(t2) && source != target
    requires MbidsMerged(t0, t1, source, target) && MbidsMerged(t1, t2, source, target)
    ensures Mergeable(t1.rows, source, target) && t2 == t1
  {
    hide Consistent, MbidsMerged, HandedTo;
    forall id | id in t1.rows && t1.rows[id].gid == source
      ensures RowMergeable(t1.rows, id, target)
    {
      RetiredStaysRetired(t0, t1, t2, source, target, id);
    }
    forall id | id in t1.rows
      ensures id in t2.rows && t2.rows[id] == t1.rows[id]
    {
      SecondRunKeepsRow(t0, t1, t2, source, target, id);
    }
    forall id | id in t2.rows
      ensures id in t1.rows
    {
      SecondRunAddsNone(t0, t1, t2, source, target, id);
    }
    assert t2.rows == t1.rows;
    SecondRunKeepsLinks(t0, t1, t2, source, target);
  }

  lemma RetiredStaysRetired(t0: Tables, t1: Tables, t2: Tables, source: int, target: int, id: nat)
    requires Consistent(t0) && Consistent(t1) && source != target
    requires MbidsMerged(t0, t1, source, target) && MbidsMerged(t1, t2, source, target)
    requires id in t1.rows && t1.rows[id].gid == source
    ensures RowMergeable(t1.rows, id, target) && id in t2.rows && t2.rows[id] == t1.rows[id]
    ensures
      var d := t1.rows[id].mergedInto;
      d.Some? && d.value in t1.rows && d.value in t2.rows && t2.rows[d.value] == t1.rows[d.value]
      && t1.rows[d.value].track == t1.rows[id].track && t1.rows[d.value].gid == target
  {
    hide LinksHanded, Counted, MergedIntoExists;
    SourceRowsStay(t0, t1, source, target, id);
    assert id in WithGid(t1.rows, source) && HandedTo(t1.rows, t2.rows, id, target);
    var d2 := t2.rows[id].mergedInto.value;
    assert d2 in t1.rows;
    PlacesStay(t1, t2, source, target, d2);
  }

  lemma SecondRunKeepsRow(t0: Tables, t1: Tables, t2: Tables, source: int, target: int, id: nat)
    requires Consistent(t0) && Consistent(t1) && source != target
    requires MbidsMerged(t0, t1, source, target) && MbidsMerged(t1, t2, source, target)
    requires id in t1.rows
    ensures id in t2.rows && t2.rows[id] == t1.rows[id]
  {
    hide LinksHanded, Counted, MergedIntoExists, HandedTo;
    var done := WithGid(t1.rows, source);
    if id in done {
      RetiredStaysRetired(t0, t1, t2, source, target, id);
    } else if t1.rows[id].gid == target && OnTrackOf(t1.rows, done, t1.rows[id].track) {
      var k :| k in done && k in t1.rows && t1.rows[k].track == t1.rows[id].track;
      RetiredStaysRetired(t0, t1, t2, source, target, k);
    }
  }

  lemma SecondRunAddsNone(t0: Tables, t1: Tables, t2: Tables, source: int, target: int, id: nat)
    requires Consistent(t0) && Consistent(t1) && Consistent(t2) && source != target
    requires MbidsMerged(t0, t1, source, target) && MbidsMerged(t1, t2, source, target)
    requires id in t2.rows
    ensures id in t1.rows
  {
    hide LinksHanded, Counted, MergedIntoExists, HandedTo;
    if id !in t1.rows {
      var k :| k in WithGid(t1.rows, source) && k in t1.rows && t1.rows[k].track == t2.rows[id].track;
      RetiredStaysRetired(t0, t1, t2, source, target, k);
    }
  }

  lemma SecondRunKeepsLinks(t0: Tables, t1: Tables, t2: Tables, source: int, target: int)
    requires Consistent(t0) && Consistent(t1) && source != target && t2.rows == t1.rows
    requires MbidsMerged(t0, t1, source, target) && MbidsMerged(t1, t2, source, target)
    ensures t2.sources == t1.sources && t2.changes == t1.changes
  {
    hide RowsHanded, Unique, MergedIntoExists;
    forall l: nat | l in t0.rows
      ensures Handed(t1.rows, WithGid(t0.rows, source), l) !in WithGid(t1.rows, source)
    {
      HandedIsNotSource(t0, t1, source, target, l);
    }
  }

  lemma HandedIsNotSource(t0: Tables, t1: Tables, source: int, target: int, l: nat)
    requires Consistent(t0) && source != target && MbidsMerged(t0, t1, source, target) && l in t0.rows
    ensures Handed(t1.rows, WithGid(t0.rows, source), l) !in WithGid(t1.rows, source)
  {
    hide LinksHanded, Counted, MergedIntoExists;
    if l in WithGid(t0.rows, source) {
      assert HandedTo(t0.rows, t1.rows, l, target);
    } else {
      PlacesStay(t0, t1, source, target, l);
    }
  }

  // ----- merging tracks -----------------------------------------------------------------

  /** Every gid has on the target the votes it had on all the tracks together, and none are
      left on the others. */
  lemma TrackVotesMove(t: Tables, t': Tables, tracks: set<int>, target: int, isMbid: bool, gid: int)
    requires Consistent(t) && Consistent(t') && TracksMerged(t, t', tracks, target, isMbid) && target in tracks
    ensures Votes(t'.rows, target, gid) == SumCounts(t.rows, Group(t.rows, tracks, gid))
    ensures forall track :: track in tracks && track != target ==> NoRowAt(t'.rows, track, gid)
  {
    hide Counted, MergedIntoExists, Survives, Home, Votes;
    var ids := Group(t.rows, tracks, gid);
    if ids == {} {
      forall id | id in t'.rows
        ensures !(t'.rows[id].track == target && t'.rows[id].gid == gid)
      {
        assert id !in ids;
      }
      NoVotes(t'.rows, target, gid);
    } else {
      var id := Least(ids);
      HomeSurvives(t.rows, tracks, id);
      LeastIsHome(t.rows, tracks, gid);
      VotesOfRow(t'.rows, id);
    }
  }

  lemma LeastIsHome(rows: Rows, tracks: set<int>, gid: int)
    requires Group(rows, tracks, gid) != {}
    ensures Home(rows, tracks, Least(Group(rows, tracks, gid))) == Least(Group(rows, tracks, gid))
  {
  }

  /** A row stays exactly if its track is not merged or no lower row of those tracks has its gid;
      the row that stays keeps its id, its gid and what it was merged into. */
  lemma LowestRowStays(t: Tables, t': Tables, tracks: set<int>, target: int, isMbid: bool, id: nat)
    requires TracksMerged(t, t', tracks, target, isMbid) && id in t.rows
    ensures id in t'.rows <==>
              t.rows[id].track !in tracks
              || forall k :: k in t.rows && t.rows[k].track in tracks && t.rows[k].gid == t.rows[id].gid ==> id <= k
    ensures id in t'.rows ==> t'.rows[id].gid == t.rows[id].gid && t'.rows[id].mergedInto == t.rows[id].mergedInto
    ensures id in t'.rows && t.rows[id].track !in tracks ==> t'.rows[id] == t.rows[id]
  {
    var group := Group(t.rows, tracks, t.rows[id].gid);
    assert t.rows[id].track in tracks ==> id in group;
  }

  /** A gid is enabled on the target exactly if it was enabled on one of the tracks. */
  lemma EnabledIfAnyWas(t: Tables, t': Tables, tracks: set<int>, target: int, id: nat)
    requires TracksMerged(t, t', tracks, target, true) && target in tracks && id in t'.rows && t'.rows[id].track == target
    ensures !t'.rows[id].disabled <==> exists k :: k in Group(t.rows, tracks, t'.rows[id].gid) && !t.rows[k].disabled
  {
  }
}
