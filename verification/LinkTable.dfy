/** The operations of acoustid/data/track.py that rewrite one link table and its source
    table: each method is one transaction, and a failed one leaves nothing behind. */
module LinkTables {
  import opened Sets
  import opened Wrappers
  import opened Links

  class LinkTable {
    // track_mbid has a flag, a merged_into column and a table of changes
    const isMbid: bool
    // the source table accepts rows without a submission
    const submissionOptional: bool
    var rows: Rows
    var sources: seq<Source>
    var changes: seq<Change>
    var nextId: nat

    constructor (isMbid: bool)
      ensures Valid() && Snapshot() == Tables(map[], [], [])
      ensures this.isMbid == isMbid == this.submissionOptional
    {
      this.isMbid := isMbid;
      this.submissionOptional := isMbid;
      rows, sources, changes, nextId := map[], [], [], 1;
    }

    ghost function Snapshot(): Tables
      reads this
    {
      Tables(rows, sources, changes)
    }

    ghost predicate Valid()
      reads this
    {
      && Consistent(Snapshot())
      && (forall id :: id in rows ==> id < nextId)
      && (isMbid || (changes == [] && Unmerged(rows)))
    }

    method Find(track: int, gid: int) returns (found: Option<nat>)
      ensures found.Some? ==> found.value in rows && rows[found.value].track == track && rows[found.value].gid == gid
      ensures found.None? ==> NoRowAt(rows, track, gid)
    {
      if id :| id in rows && rows[id].track == track && rows[id].gid == gid {
        found := Some(id);
      } else {
        found := None;
      }
    }

    /** `_insert_gid`: count the link up or create it, and add a source row. The source
        table refuses a row without a source, and but for MBIDs without a submission. */
    method InsertGid(track: int, gid: int, submission: Option<int>, source: Option<int>)
      returns (ok: bool, ghost id: nat)
      requires Valid()
      modifies this
      ensures Valid()
      ensures ok <==> source.Some? && (submissionOptional || submission.Some?)
      ensures !ok ==> Snapshot() == old(Snapshot())
      ensures ok ==>
                && Voted(old(Snapshot()), Snapshot(), id, track, gid)
                && sources == old(sources) + [Source(id, submission, source.value)]
    {
      hide Consistent;
      ok, id := source.Some? && (submissionOptional || submission.Some?), 0;
      if !ok {
        return;
      }
      var found := Find(track, gid);
      if found.Some? {
        id := found.value;
        AddVote(found.value, submission, source.value);
      } else {
        id := nextId;
        AddLink(track, gid, submission, source.value);
      }
    }

    method AddVote(id: nat, submission: Option<int>, source: int)
      requires Valid() && id in rows
      modifies this
      ensures Valid() && id in rows && Voted(old(Snapshot()), Snapshot(), id, rows[id].track, rows[id].gid)
      ensures rows[id].track == old(rows)[id].track && rows[id].gid == old(rows)[id].gid
      ensures sources == old(sources) + [Source(id, submission, source)]
    {
      hide Consistent;
      CountUp(Snapshot(), Source(id, submission, source));
      rows := rows[id := rows[id].(count := rows[id].count + 1)];
      sources := sources + [Source(id, submission, source)];
    }

    method AddLink(track: int, gid: int, submission: Option<int>, source: int)
      requires Valid() && NoRowAt(rows, track, gid)
      modifies this
      ensures Valid() && Voted(old(Snapshot()), Snapshot(), old(nextId), track, gid)
      ensures sources == old(sources) + [Source(old(nextId), submission, source)]
    {
      hide Consistent;
      CreateLink(Snapshot(), track, gid, Source(nextId, submission, source));
      rows := rows[nextId := Link(track, gid, 1, false, None)];
      sources := sources + [Source(nextId, submission, source)];
      nextId := nextId + 1;
    }

    /** `disable_mbid`: every row of the MBID is disabled and gets a change row. */
    method DisableMbid(mbid: int)
      requires Valid() && isMbid
      modifies this
      ensures Valid() && rows == Disabled(old(rows), mbid) && sources == old(sources)
      ensures rows.Keys == old(rows).Keys
      ensures forall id :: id in rows ==>
                rows[id] == if rows[id].gid == mbid then old(rows)[id].(disabled := true) else old(rows)[id]
      ensures exists added :: changes == old(changes) + added && MarksExactly(added, WithGid(rows, mbid))
    {
      hide Consistent, MarksExactly;
      DisabledIsConsistent(Snapshot(), mbid);
      var added := DisablingChanges(WithGid(rows, mbid));
      rows := Disabled(rows, mbid);
      assert WithGid(rows, mbid) == WithGid(old(rows), mbid);
      MarkedExist(added, rows, mbid);
      AppendChanges(Tables(rows, sources, changes), added);
      changes := changes + added;
    }

    /** One round of the loop of `merge_mbids`: the row of the source MBID hands its votes,
        sources and changes to the row of the target MBID on the same track, which is
        created if need be. The caller has checked that nothing else is in the way. */
    method MergeRow(id: nat, targetMbid: int) returns (ghost target: nat)
      requires Valid() && isMbid && id in rows
      modifies this
      ensures Valid()
      ensures RowMerged(old(Snapshot()), Snapshot(), id, target, targetMbid)
      ensures target in old(rows) || target == old(nextId)
    {
      hide Consistent;
      var source := rows[id];
      var found := Find(source.track, targetMbid);
      var targetId := if found.Some? then found.value else nextId;
      target := targetId;
      ghost var t := Snapshot();
      if found.None? {
        rows := rows[targetId := Link(source.track, targetMbid, 0, false, None)];
        nextId := nextId + 1;
      }
      rows := rows[id := rows[id].(mergedInto := Some(targetId), count := 0, disabled := true)];
      var row := rows[targetId];
      rows := rows[targetId := row.(count := row.count + source.count, disabled := row.disabled && source.disabled)];
      sources := RepointedSources(sources, {id}, targetId);
      changes := RepointedChanges(changes, {id}, targetId);
      RowMergeKeepsConsistent(t, Snapshot(), id, targetId, targetMbid);
    }

    /** `merge_mbids`. Fails, and changes nothing, exactly if some row of the source MBID has
        been merged into a row other than that of the target MBID on its track. */
    method MergeMbids(source: int, target: int) returns (ok: bool)
      requires Valid() && isMbid
      modifies this
      ensures Valid()
      ensures ok <==> Mergeable(old(rows), source, target)
      ensures ok <==> forall id :: id in old(rows) && old(rows)[id].gid == source && old(rows)[id].mergedInto.Some? ==>
                IsRowAt(old(rows), old(rows)[id].mergedInto.value, old(rows)[id].track, target)
      ensures !ok ==> Snapshot() == old(Snapshot())
      ensures ok && source != target ==> MbidsMerged(old(Snapshot()), Snapshot(), source, target)
      ensures ok && source == target ==> SelfMerged(old(Snapshot()), Snapshot(), WithGid(old(rows), source))
    {
      hide Consistent, RowMerged, MergedSoFar, SelfMerged, Grown, WithGid, RowMergeable, Mergeable;
      var rows0, sources0, changes0, nextId0 := rows, sources, changes, nextId;
      ghost var t0 := Snapshot();
      var all := WithGid(rows, source);
      var todo := all;
      NothingMerged(t0, source, target);
      while todo != {}
        invariant Valid() && todo <= all
        invariant source != target ==> MergedSoFar(t0, Snapshot(), source, target, all - todo)
        invariant source == target ==> SelfMerged(t0, Snapshot(), all - todo)
        invariant Grown(rows0, rows, todo, target)
        invariant AreMergeable(rows0, all - todo, target)
        decreases todo
      {
        var id :| id in todo;
        SameMergeable(t0, rows, todo, target, id);
        ok := RowMergeable(rows, id, target);
        OneMoreMergeable(rows0, source, target, all - todo, id);
        if !ok {
          rows, sources, changes, nextId := rows0, sources0, changes0, nextId0;
          MergeableMeans(rows0, source, target);
          return;
        }
        ghost var t := Snapshot();
        ghost var into := MergeRow(id, target);
        RoundDone(t0, t, Snapshot(), source, target, all - todo, todo, id, into);
        assert all - (todo - {id}) == all - todo + {id};
        todo := todo - {id};
      }
      assert all - {} == all;
      AllMergeable(rows0, source, target);
      MergeableMeans(rows0, source, target);
      ok := true;
    }

    /** The first loop of `_merge_tracks_gids`: sources and changes go to the lowest row
        of their group; the rows to delete and what the rest will be are remembered. */
    method RepointSources(tracks: set<int>) returns (toDelete: set<nat>, toUpdate: map<nat, Link>)
      requires Valid()
      modifies this`sources, this`changes
      ensures SourcesFollow(old(sources), sources, rows, tracks, Gids(rows, tracks))
      ensures isMbid ==> ChangesFollow(old(changes), changes, rows, tracks, Gids(rows, tracks))
      ensures !isMbid ==> changes == old(changes)
      ensures forall id :: id in toDelete <==> id in rows && !Survives(rows, tracks, id)
      ensures Summaries(rows, tracks, toUpdate)
    {
      hide Consistent;
      toDelete, toUpdate := {}, map[];
      var todo := Gids(rows, tracks);
      NothingFollowed(sources, changes, rows, tracks);
      while todo != {}
        invariant todo <= Gids(rows, tracks)
        invariant SourcesFollow(old(sources), sources, rows, tracks, Gids(rows, tracks) - todo)
        invariant isMbid ==> ChangesFollow(old(changes), changes, rows, tracks, Gids(rows, tracks) - todo)
        invariant !isMbid ==> changes == old(changes)
        invariant Sorted(rows, tracks, Gids(rows, tracks) - todo, toDelete, toUpdate)
        decreases todo
      {
        var gid :| gid in todo;
        var allIds := Group(rows, tracks, gid);
        GidHasRows(rows, tracks, gid);
        var id := Least(allIds);
        var oldIds := allIds - {id};
        ghost var done := Gids(rows, tracks) - todo;
        assert Gids(rows, tracks) - (todo - {gid}) == done + {gid};
        OneMoreSorted(rows, tracks, done, gid, toDelete, toUpdate);
        toDelete := toDelete + oldIds;
        toUpdate := toUpdate[id := Summary(rows, tracks, id)];
        SourcesFollowOn(old(sources), sources, rows, tracks, done, gid);
        sources := RepointedSources(sources, oldIds, id);
        if isMbid {
          ChangesFollowOn(old(changes), changes, rows, tracks, done, gid);
          changes := RepointedChanges(changes, oldIds, id);
        }
        todo := todo - {gid};
      }
      assert Gids(rows, tracks) - {} == Gids(rows, tracks);
    }

    /** One UPDATE of the last loop of `_merge_tracks_gids`. After it, as before it, no two rows
        share a track and a gid, although the rows still to do are where they were. */
    method UpdateRow(id: nat, target: int, summaries: map<nat, Link>, ghost rows0: Rows, ghost tracks: set<int>, ghost done: set<nat>)
      requires Updated(rows0, rows, tracks, target, isMbid, done) && Unique(rows0) && target in tracks
      requires Summaries(rows0, tracks, summaries) && id in summaries && id !in done
      modifies this`rows
      ensures Unique(rows) && Updated(rows0, rows, tracks, target, isMbid, done + {id})
      ensures id in old(rows) && rows == old(rows)[id := MergedRow(rows0, tracks, target, isMbid, id)]
    {
      hide Updated, Unique, Summaries, FromSummary, MergedRow;
      UpdatedOn(rows0, rows, tracks, target, isMbid, done, id, summaries);
      RowToUpdate(rows0, rows, tracks, target, isMbid, done, id, summaries);
      rows := rows[id := FromSummary(rows[id], target, summaries[id], isMbid)];
      UniqueThroughout(rows0, rows, tracks, target, isMbid, done + {id});
    }

    /** The last loop of `_merge_tracks_gids`: the remaining rows are updated one at a time. */
    method UpdateRows(target: int, toUpdate: map<nat, Link>, ghost rows0: Rows, ghost tracks: set<int>)
      requires Updated(rows0, rows, tracks, target, isMbid, {}) && Unique(rows0) && Unique(rows) && target in tracks
      requires Summaries(rows0, tracks, toUpdate)
      modifies this`rows
      ensures Unique(rows) && Updated(rows0, rows, tracks, target, isMbid, toUpdate.Keys)
    {
      hide Updated, Unique, Summaries, MergedRow;
      var todo := toUpdate.Keys;
      assert toUpdate.Keys - todo == {};
      while todo != {}
        invariant todo <= toUpdate.Keys
        invariant Unique(rows) && Updated(rows0, rows, tracks, target, isMbid, toUpdate.Keys - todo)
        decreases todo
      {
        var id :| id in todo;
        ghost var done := toUpdate.Keys - todo;
        UpdateRow(id, target, toUpdate, rows0, tracks, done);
        assert toUpdate.Keys - (todo - {id}) == done + {id};
        todo := todo - {id};
      }
      assert toUpdate.Keys - {} == toUpdate.Keys;
    }

    /** `_merge_tracks_gids`: sources and changes are repointed group by group, then all
        rows but the lowest of each group are deleted, then the rows left are updated one
        at a time. The delete fails, and with it the transaction, if a row that stays
        refers to one that goes. */
    method MergeTracksGids(target: int, sourceTracks: set<int>) returns (ok: bool)
      requires Valid()
      modifies this
      ensures Valid()
      ensures ok <==> ReferencesSurvive(old(rows), sourceTracks + {target})
      ensures !ok ==> Snapshot() == old(Snapshot())
      ensures ok ==> TracksMerged(old(Snapshot()), Snapshot(), sourceTracks + {target}, target, isMbid)
    {
      hide Consistent, TracksMerged, Updated, SourcesFollow, ChangesFollow, Summaries, Gids;
      var tracks := sourceTracks + {target};
      ghost var t0 := Snapshot();
      var sources0, changes0 := sources, changes;
      var toDelete, toUpdate := RepointSources(tracks);
      ok := forall id :: id in rows && id !in toDelete && rows[id].mergedInto.Some? ==> rows[id].mergedInto.value !in toDelete;
      if !ok {
        sources, changes := sources0, changes0;
        return;
      }
      ConsistentIsUnique(t0);
      rows := rows - toDelete;
      RestIsUntouched(t0.rows, rows, tracks, target, isMbid);
      UpdateRows(target, toUpdate, t0.rows, tracks);
      MergeIsGroupBy(t0, Snapshot(), tracks, target, isMbid, toUpdate);
      MergeKeepsReferences(t0, Snapshot(), tracks, target, isMbid);
      MergeKeepsConsistent(t0, Snapshot(), tracks, target, isMbid);
      MergeKeepsIds(t0, Snapshot(), tracks, target, isMbid);
    }
  }

  /** Nothing has been merged into another row: only MBIDs ever are. */
  ghost predicate Unmerged(rows: Rows) {
    forall id :: id in rows ==> rows[id].mergedInto.None?
  }

  /** One more vote on the row of a track and a gid, which is created if it is not there. */
  ghost predicate Voted(t: Tables, t': Tables, id: nat, track: int, gid: int) {
    && id in t'.rows && t'.rows[id].track == track && t'.rows[id].gid == gid
    && t'.rows == t.rows[id := if id in t.rows then t.rows[id].(count := t.rows[id].count + 1)
                               else Link(track, gid, 1, false, None)]
    && t'.changes == t.changes
  }

  // ----- pieces of the operations -----------------------------------------------------

  method DisablingChanges(links: set<nat>) returns (added: seq<Change>)
    ensures MarksExactly(added, links)
  {
    var ids := links;
    added := [];
    while ids != {}
      invariant ids <= links
      invariant MarksExactly(added, links - ids)
      decreases ids
    {
      var id :| id in ids;
      MarkOneMore(added, links - ids, id);
      assert links - (ids - {id}) == (links - ids) + {id};
      added := added + [Change(id, true)];
      ids := ids - {id};
    }
    assert links - {} == links;
  }

  lemma MarkedExist(added: seq<Change>, rows: Rows, mbid: int)
    requires MarksExactly(added, WithGid(rows, mbid))
    ensures forall c :: c in added ==> c.link in rows
  {
  }

  function WithGid(rows: Rows, gid: int): set<nat> {
    set id | id in rows && rows[id].gid == gid
  }

  /** One change row for each of the links, all of them disabling. */
  ghost predicate MarksExactly(added: seq<Change>, ids: set<nat>) {
    && |added| == |ids|
    && (forall c :: c in added ==> c.disabled && c.link in ids)
    && (forall id :: id in ids ==> Change(id, true) in added)
  }

  lemma MarkOneMore(added: seq<Change>, ids: set<nat>, id: nat)
    requires MarksExactly(added, ids) && id !in ids
    ensures MarksExactly(added + [Change(id, true)], ids + {id})
  {
    assert Change(id, true) in [Change(id, true)];
  }

  lemma AppendChanges(t: Tables, added: seq<Change>)
    requires Consistent(t) && forall c :: c in added ==> c.link in t.rows
    ensures Consistent(t.(changes := t.changes + added))
  {
    var all := t.changes + added;
    forall i | 0 <= i < |all|
      ensures all[i].link in t.rows
    {
      if |t.changes| <= i {
        assert all[i] in added;
      }
    }
  }

  function Disabled(rows: Rows, mbid: int): Rows {
    map id | id in rows :: if rows[id].gid == mbid then rows[id].(disabled := true) else rows[id]
  }

  lemma DisabledIsConsistent(t: Tables, mbid: int)
    requires Consistent(t)
    ensures Consistent(t.(rows := Disabled(t.rows, mbid)))
  {
  }

  lemma CountUp(t: Tables, s: Source)
    requires Consistent(t) && s.link in t.rows
    ensures Consistent(Tables(t.rows[s.link := t.rows[s.link].(count := t.rows[s.link].count + 1)], t.sources + [s], t.changes))
  {
    var rows' := t.rows[s.link := t.rows[s.link].(count := t.rows[s.link].count + 1)];
    forall id | id in rows'
      ensures rows'[id].count == CountIn(t.sources + [s], {id})
    {
      CountSnoc(t.sources, s, {id});
    }
  }

  lemma CreateLink(t: Tables, track: int, gid: int, s: Source)
    requires Consistent(t) && s.link !in t.rows && NoRowAt(t.rows, track, gid)
    ensures Consistent(Tables(t.rows[s.link := Link(track, gid, 1, false, None)], t.sources + [s], t.changes))
  {
    hide CountIn, Unique, MergedIntoExists;
    var rows' := t.rows[s.link := Link(track, gid, 1, false, None)];
    CreatedIsUnique(t.rows, track, gid, s.link);
    CountNone(t.sources, {s.link});
    forall id | id in rows'
      ensures rows'[id].count == CountIn(t.sources + [s], {id})
    {
      CountSnoc(t.sources, s, {id});
    }
  }

  lemma CreatedIsUnique(rows: Rows, track: int, gid: int, id: nat)
    requires Unique(rows) && MergedIntoExists(rows) && id !in rows && NoRowAt(rows, track, gid)
    ensures Unique(rows[id := Link(track, gid, 1, false, None)])
    ensures MergedIntoExists(rows[id := Link(track, gid, 1, false, None)])
  {
  }

  // ----- lemmas: merging tracks ---------------------------------------------------------

  function Gids(rows: Rows, tracks: set<int>): set<int> {
    set id | id in rows && rows[id].track in tracks :: rows[id].gid
  }

  lemma GidHasRows(rows: Rows, tracks: set<int>, gid: int)
    requires gid in Gids(rows, tracks)
    ensures Group(rows, tracks, gid) != {}
  {
    var id :| id in rows && rows[id].track in tracks && rows[id].gid == gid;
    assert id in Group(rows, tracks, gid);
  }

  /** What the query answers for the group of a row: the sum, and whether all are disabled. */
  function Summary(rows: Rows, tracks: set<int>, id: nat): Link
    requires id in rows
  {
    var ids := Group(rows, tracks, rows[id].gid);
    rows[id].(count := SumCounts(rows, ids), disabled := AllDisabled(rows, ids))
  }

  function RepointedSources(sources: seq<Source>, oldIds: set<nat>, id: nat): seq<Source> {
    seq(|sources|, i requires 0 <= i < |sources| =>
      if sources[i].link in oldIds then sources[i].(link := id) else sources[i])
  }

  function RepointedChanges(changes: seq<Change>, oldIds: set<nat>, id: nat): seq<Change> {
    seq(|changes|, i requires 0 <= i < |changes| =>
      if changes[i].link in oldIds then changes[i].(link := id) else changes[i])
  }

  /** Where a link points once the groups of some gids have been dealt with. */
  function Followed(rows: Rows, tracks: set<int>, done: set<int>, link: nat): nat {
    if link in rows && rows[link].gid in done then Home(rows, tracks, link) else link
  }

  ghost predicate SourcesFollow(before: seq<Source>, after: seq<Source>, rows: Rows, tracks: set<int>, done: set<int>) {
    |after| == |before| &&
    forall i :: 0 <= i < |before| ==> after[i] == before[i].(link := Followed(rows, tracks, done, before[i].link))
  }

  ghost predicate ChangesFollow(before: seq<Change>, after: seq<Change>, rows: Rows, tracks: set<int>, done: set<int>) {
    |after| == |before| &&
    forall i :: 0 <= i < |before| ==> after[i] == before[i].(link := Followed(rows, tracks, done, before[i].link))
  }

  lemma NothingFollowed(sources: seq<Source>, changes: seq<Change>, rows: Rows, tracks: set<int>)
    ensures SourcesFollow(sources, sources, rows, tracks, Gids(rows, tracks) - Gids(rows, tracks))
    ensures ChangesFollow(changes, changes, rows, tracks, Gids(rows, tracks) - Gids(rows, tracks))
  {
  }

  /** One repointing statement takes every link one group further. */
  lemma FollowedOn(rows: Rows, tracks: set<int>, done: set<int>, gid: int, link: nat)
    requires gid in Gids(rows, tracks) && gid !in done && Group(rows, tracks, gid) != {}
    ensures
      var ids := Group(rows, tracks, gid);
      var l := Followed(rows, tracks, done, link);
      Followed(rows, tracks, done + {gid}, link) == if l in ids - {Least(ids)} then Least(ids) else l
  {
    if link in rows && rows[link].track in tracks {
      HomeIsInGroup(rows, tracks, link);
    }
  }

  lemma SourcesFollowOn(before: seq<Source>, after: seq<Source>, rows: Rows, tracks: set<int>, done: set<int>, gid: int)
    requires gid in Gids(rows, tracks) && gid !in done && Group(rows, tracks, gid) != {}
    requires SourcesFollow(before, after, rows, tracks, done)
    ensures
      var ids := Group(rows, tracks, gid);
      SourcesFollow(before, RepointedSources(after, ids - {Least(ids)}, Least(ids)), rows, tracks, done + {gid})
  {
    forall i | 0 <= i < |before| {
      FollowedOn(rows, tracks, done, gid, before[i].link);
    }
  }

  lemma ChangesFollowOn(before: seq<Change>, after: seq<Change>, rows: Rows, tracks: set<int>, done: set<int>, gid: int)
    requires gid in Gids(rows, tracks) && gid !in done && Group(rows, tracks, gid) != {}
    requires ChangesFollow(before, after, rows, tracks, done)
    ensures
      var ids := Group(rows, tracks, gid);
      ChangesFollow(before, RepointedChanges(after, ids - {Least(ids)}, Least(ids)), rows, tracks, done + {gid})
  {
    forall i | 0 <= i < |before| {
      FollowedOn(rows, tracks, done, gid, before[i].link);
    }
  }

  /** The rows of the groups seen so far, sorted into those to delete and those to update. */
  ghost predicate Sorted(rows: Rows, tracks: set<int>, done: set<int>, toDelete: set<nat>, toUpdate: map<nat, Link>) {
    && (forall id :: id in toDelete <==>
          id in rows && rows[id].track in tracks && rows[id].gid in done && !Survives(rows, tracks, id))
    && (forall id :: id in toUpdate <==>
          id in rows && rows[id].track in tracks && rows[id].gid in done && Survives(rows, tracks, id))
    && (forall id :: id in toUpdate ==> toUpdate[id] == Summary(rows, tracks, id))
  }

  lemma OneMoreSorted(rows: Rows, tracks: set<int>, done: set<int>, gid: int, toDelete: set<nat>, toUpdate: map<nat, Link>)
    requires Sorted(rows, tracks, done, toDelete, toUpdate)
    requires gid in Gids(rows, tracks) && gid !in done && Group(rows, tracks, gid) != {}
    ensures
      var ids := Group(rows, tracks, gid);
      Least(ids) in rows &&
      Sorted(rows, tracks, done + {gid}, toDelete + (ids - {Least(ids)}), toUpdate[Least(ids) := Summary(rows, tracks, Least(ids))])
  {
    hide Summary;
    var ids := Group(rows, tracks, gid);
    forall id | id in rows && rows[id].track in tracks && rows[id].gid == gid
      ensures id in ids && (Survives(rows, tracks, id) <==> id == Least(ids))
    {
    }
  }

  predicate ReferencesSurvive(rows: Rows, tracks: set<int>) {
    forall id :: id in rows && Survives(rows, tracks, id) && rows[id].mergedInto.Some? && rows[id].mergedInto.value in rows ==>
      Survives(rows, tracks, rows[id].mergedInto.value)
  }

  /** The table partway through the last loop. */
  ghost predicate Updated(rows0: Rows, rows: Rows, tracks: set<int>, target: int, isMbid: bool, done: set<nat>) {
    && (forall id :: id in rows <==> id in rows0 && Survives(rows0, tracks, id))
    && (forall id :: id in rows && id in rows0 ==>
          rows[id] == if id in done then MergedRow(rows0, tracks, target, isMbid, id) else rows0[id])
    && (forall id :: id in done && id in rows0 ==> rows0[id].track in tracks)
  }

  function FromSummary(row: Link, target: int, summary: Link, isMbid: bool): Link {
    var row' := row.(track := target, count := summary.count);
    if isMbid then row'.(disabled := summary.disabled) else row'
  }

  /** What the query found out about each row to update. */
  ghost predicate Summaries(rows0: Rows, tracks: set<int>, toUpdate: map<nat, Link>) {
    && (forall id :: id in toUpdate <==> id in rows0 && rows0[id].track in tracks && Survives(rows0, tracks, id))
    && (forall id :: id in toUpdate ==> toUpdate[id] == Summary(rows0, tracks, id))
  }

  lemma UpdatedOn(rows0: Rows, rows: Rows, tracks: set<int>, target: int, isMbid: bool, done: set<nat>, id: nat,
                  toUpdate: map<nat, Link>)
    requires Updated(rows0, rows, tracks, target, isMbid, done) && id !in done
    requires Summaries(rows0, tracks, toUpdate) && id in toUpdate
    ensures id in rows
    ensures Updated(rows0, rows[id := FromSummary(rows[id], target, toUpdate[id], isMbid)], tracks, target, isMbid, done + {id})
  {
    hide Survives, Group, SumCounts, AllDisabled;
    assert FromSummary(rows0[id], target, toUpdate[id], isMbid) == MergedRow(rows0, tracks, target, isMbid, id);
  }

  lemma RowToUpdate(rows0: Rows, rows: Rows, tracks: set<int>, target: int, isMbid: bool, done: set<nat>, id: nat,
                    toUpdate: map<nat, Link>)
    requires Updated(rows0, rows, tracks, target, isMbid, done) && id !in done
    requires Summaries(rows0, tracks, toUpdate) && id in toUpdate
    ensures id in rows && id in rows0
    ensures FromSummary(rows[id], target, toUpdate[id], isMbid) == MergedRow(rows0, tracks, target, isMbid, id)
  {
    hide Survives, Group, SumCounts, AllDisabled;
  }

  lemma UniqueThroughout(rows0: Rows, rows: Rows, tracks: set<int>, target: int, isMbid: bool, done: set<nat>)
    requires Unique(rows0) && target in tracks && Updated(rows0, rows, tracks, target, isMbid, done)
    ensures Unique(rows)
  {
    forall i, j | i in rows && j in rows && rows[i].track == rows[j].track && rows[i].gid == rows[j].gid
      ensures i == j
    {
      if rows0[i].track in tracks && rows0[j].track in tracks {
        SameHomeIffSameGid(rows0, tracks, i, j);
      }
    }
  }

  lemma RestIsUntouched(rows0: Rows, rows: Rows, tracks: set<int>, target: int, isMbid: bool)
    requires Unique(rows0) && forall id :: id in rows <==> id in rows0 && Survives(rows0, tracks, id)
    requires forall id :: id in rows ==> id in rows0 && rows[id] == rows0[id]
    ensures Updated(rows0, rows, tracks, target, isMbid, {}) && Unique(rows)
  {
  }

  lemma ConsistentIsUnique(t: Tables)
    requires Consistent(t)
    ensures Unique(t.rows)
  {
  }

  lemma FollowedAll(rows: Rows, tracks: set<int>, link: nat)
    ensures Followed(rows, tracks, Gids(rows, tracks), link) == Home(rows, tracks, link)
  {
  }

  lemma MergeIsGroupBy(t: Tables, t': Tables, tracks: set<int>, target: int, isMbid: bool, toUpdate: map<nat, Link>)
    requires Updated(t.rows, t'.rows, tracks, target, isMbid, toUpdate.Keys) && Summaries(t.rows, tracks, toUpdate)
    requires SourcesFollow(t.sources, t'.sources, t.rows, tracks, Gids(t.rows, tracks))
    requires isMbid ==> ChangesFollow(t.changes, t'.changes, t.rows, tracks, Gids(t.rows, tracks))
    requires !isMbid ==> t'.changes == t.changes
    ensures TracksMerged(t, t', tracks, target, isMbid)
  {
    hide Home, MergedRow;
    forall link {
      FollowedAll(t.rows, tracks, link);
    }
  }

  lemma MergeKeepsReferences(t: Tables, t': Tables, tracks: set<int>, target: int, isMbid: bool)
    requires Consistent(t) && TracksMerged(t, t', tracks, target, isMbid) && ReferencesSurvive(t.rows, tracks)
    ensures MergedIntoExists(t'.rows)
  {
  }

  lemma MergeKeepsIds(t: Tables, t': Tables, tracks: set<int>, target: int, isMbid: bool)
    requires TracksMerged(t, t', tracks, target, isMbid)
    ensures forall id :: id in t'.rows ==> id in t.rows
    ensures t.changes == [] ==> t'.changes == []
    ensures Unmerged(t.rows) ==> Unmerged(t'.rows)
  {
  }

  // ----- lemmas: merging MBIDs ------------------------------------------------------------

  /** Nothing stands in the way of merging this row: it has not been merged into a row
      other than the target's. */
  predicate RowMergeable(rows: Rows, id: nat, target: int)
    requires id in rows
  {
    rows[id].mergedInto.Some? ==> IsRowAt(rows, rows[id].mergedInto.value, rows[id].track, target)
  }

  predicate Mergeable(rows: Rows, source: int, target: int) {
    forall id :: id in rows && rows[id].gid == source ==> RowMergeable(rows, id, target)
  }

  lemma MergeableMeans(rows: Rows, source: int, target: int)
    ensures Mergeable(rows, source, target) <==>
              forall id :: id in rows && rows[id].gid == source && rows[id].mergedInto.Some? ==>
                IsRowAt(rows, rows[id].mergedInto.value, rows[id].track, target)
  {
  }

  /** The row is that of the track and gid. */
  predicate IsRowAt(rows: Rows, id: nat, track: int, gid: int) {
    id in rows && rows[id].track == track && rows[id].gid == gid
  }

  ghost predicate NoRowAt(rows: Rows, track: int, gid: int) {
    forall id :: id in rows ==> !(rows[id].track == track && rows[id].gid == gid)
  }

  /** The target row after it has taken over the votes of a source row. */
  function TakenOver(rows: Rows, source: Link, d: nat, target: int): Link {
    if d in rows then rows[d].(count := rows[d].count + source.count, disabled := rows[d].disabled && source.disabled)
    else Link(source.track, target, source.count, false, None)
  }

  function HandedOver(source: Link, d: nat): Link {
    source.(mergedInto := Some(d), count := 0, disabled := true)
  }

  /** The effect of one round. */
  ghost predicate RowMerged(t: Tables, t': Tables, id: nat, d: nat, target: int) {
    && id in t.rows
    && (if d in t.rows then t.rows[d].track == t.rows[id].track && t.rows[d].gid == target
        else NoRowAt(t.rows, t.rows[id].track, target))
    && t'.rows == (if id == d then t.rows[id := t.rows[id].(mergedInto := Some(id))]
                   else t.rows[id := HandedOver(t.rows[id], d)][d := TakenOver(t.rows, t.rows[id], d, target)])
    && t'.sources == RepointedSources(t.sources, {id}, d)
    && t'.changes == RepointedChanges(t.changes, {id}, d)
  }

  lemma RowMergeKeepsConsistent(t: Tables, t': Tables, id: nat, d: nat, target: int)
    requires Consistent(t) && RowMerged(t, t', id, d, target)
    ensures Consistent(t')
  {
    hide CountIn, RowMerged, Unique, MergedIntoExists;
    forall k | k in t'.rows
      ensures t'.rows[k].count == CountIn(t'.sources, {k})
    {
      RowMergeKeepsCount(t, t', id, d, target, k);
    }
    RowMergeKeepsUnique(t, t', id, d, target);
    RowMergeKeepsLinks(t, t', id, d, target);
  }

  lemma RowMergeKeepsLinks(t: Tables, t': Tables, id: nat, d: nat, target: int)
    requires Consistent(t) && RowMerged(t, t', id, d, target)
    ensures MergedIntoExists(t'.rows)
    ensures forall i :: 0 <= i < |t'.sources| ==> t'.sources[i].link in t'.rows
    ensures forall i :: 0 <= i < |t'.changes| ==> t'.changes[i].link in t'.rows
  {
    hide CountIn, Unique, NoRowAt;
  }

  lemma RowMergeKeepsUnique(t: Tables, t': Tables, id: nat, d: nat, target: int)
    requires Unique(t.rows) && RowMerged(t, t', id, d, target)
    ensures Unique(t'.rows)
  {
    assert forall k :: k in t'.rows && k in t.rows ==> t'.rows[k].track == t.rows[k].track && t'.rows[k].gid == t.rows[k].gid;
  }

  lemma RowMergeKeepsCount(t: Tables, t': Tables, id: nat, d: nat, target: int, k: nat)
    requires Counted(t) && RowMerged(t, t', id, d, target) && k in t'.rows
    ensures t'.rows[k].count == CountIn(t'.sources, {k})
  {
    var ids := if id == d then {k} else if k == d then {id} + {d} else if k == id then {} else {k};
    CountMoved(t.sources, t'.sources, ids, k);
    if id != d && k == d {
      CountDisjoint(t.sources, {id}, {d});
      CountNone(t.sources, if d in t.rows then {} else {d});
    } else if ids == {} {
      CountNone(t.sources, {});
    }
  }

  /** The rows of `done` have handed everything over, the rest is as it was. */
  ghost predicate MergedSoFar(t: Tables, t': Tables, source: int, target: int, done: set<nat>) {
    RowsHanded(t.rows, t'.rows, target, done) && LinksHanded(t, t', done)
  }

  ghost predicate RowsHanded(rows: Rows, rows': Rows, target: int, done: set<nat>) {
    && (forall id :: id in done ==> HandedTo(rows, rows', id, target))
    && (forall id :: id in rows ==> id in rows')
    && (forall id :: id in rows && id !in done && !(rows[id].gid == target && OnTrackOf(rows, done, rows[id].track)) ==>
          rows'[id] == rows[id])
    && (forall id :: id in rows' && id !in rows ==> rows'[id].gid == target && OnTrackOf(rows, done, rows'[id].track))
  }

  /** Source and change rows follow the rows that have handed over. */
  ghost predicate LinksHanded(t: Tables, t': Tables, done: set<nat>) {
    && |t'.sources| == |t.sources|
    && (forall i :: 0 <= i < |t.sources| ==> t'.sources[i] == t.sources[i].(link := Handed(t'.rows, done, t.sources[i].link)))
    && |t'.changes| == |t.changes|
    && (forall i :: 0 <= i < |t.changes| ==> t'.changes[i] == t.changes[i].(link := Handed(t'.rows, done, t.changes[i].link)))
  }

  ghost predicate OnTrackOf(rows: Rows, done: set<nat>, track: int) {
    exists id :: id in done && id in rows && rows[id].track == track
  }

  /** One source row: zeroed, disabled, linked to the target row of its track, which has
      its votes on top of its own and stays disabled only if both were. */
  ghost predicate HandedTo(rows: Rows, rows': Rows, id: nat, target: int) {
    && id in rows && id in rows' && rows'[id].mergedInto.Some?
    && var d := rows'[id].mergedInto.value;
       && rows'[id] == HandedOver(rows[id], d) && d in rows'
       && rows'[d].track == rows[id].track && rows'[d].gid == target
       && rows'[d] == TakenOver(rows, rows[id], d, target)
       && (d !in rows ==> NoRowAt(rows, rows[id].track, target))
  }

  function Handed(rows': Rows, done: set<nat>, link: nat): nat {
    if link in done && link in rows' && rows'[link].mergedInto.Some? then rows'[link].mergedInto.value else link
  }

  ghost predicate MbidsMerged(t: Tables, t': Tables, source: int, target: int) {
    MergedSoFar(t, t', source, target, WithGid(t.rows, source))
  }

  lemma NothingMerged(t: Tables, source: int, target: int)
    ensures MergedSoFar(t, t, source, target, WithGid(t.rows, source) - WithGid(t.rows, source))
    ensures Grown(t.rows, t.rows, WithGid(t.rows, source), target)
    ensures AreMergeable(t.rows, WithGid(t.rows, source) - WithGid(t.rows, source), target)
    ensures SelfMerged(t, t, WithGid(t.rows, source) - WithGid(t.rows, source))
  {
  }

  /** The rows still to do are as they were, and so is what they were merged into. */
  ghost predicate Grown(rows0: Rows, rows: Rows, todo: set<nat>, target: int) {
    && (forall id :: id in todo ==> id in rows && id in rows0 && rows[id] == rows0[id])
    && (forall id :: id in rows0 ==> id in rows && rows[id].track == rows0[id].track && rows[id].gid == rows0[id].gid)
  }

  lemma SameMergeable(t0: Tables, rows: Rows, todo: set<nat>, target: int, id: nat)
    requires Consistent(t0) && Grown(t0.rows, rows, todo, target) && id in todo
    ensures id in rows && id in t0.rows
    ensures RowMergeable(rows, id, target) <==> RowMergeable(t0.rows, id, target)
  {
  }

  lemma OthersUntouched(t0: Tables, t: Tables, t': Tables, source: int, target: int, todo: set<nat>, id: nat, d: nat)
    requires Unique(t.rows) && Grown(t0.rows, t.rows, todo, target) && RowMerged(t, t', id, d, target) && id in todo
    requires todo <= WithGid(t0.rows, source)
    ensures Grown(t0.rows, t'.rows, todo - {id}, target)
  {
    hide NoRowAt, RepointedSources, RepointedChanges;
    forall k | k in todo - {id}
      ensures k != d
    {
      assert d in t.rows && source == target ==> t.rows[d].gid == t.rows[id].gid;
    }
  }

  /** No row of `done` shares a track with the row whose turn it is, so the target row it
      finds is still the one of the beginning. */
  lemma TargetIsAsItWas(t0: Tables, t: Tables, t': Tables, source: int, target: int, done: set<nat>, id: nat, d: nat)
    requires Unique(t0.rows) && source != target && MergedSoFar(t0, t, source, target, done) && RowMerged(t, t', id, d, target)
    requires id in t0.rows && t0.rows[id].gid == source && id !in done
    requires forall k :: k in done ==> k in t0.rows && t0.rows[k].gid == source
    requires forall k :: k in t0.rows ==> k in t.rows && t.rows[k].track == t0.rows[k].track && t.rows[k].gid == t0.rows[k].gid
    ensures !OnTrackOf(t0.rows, done, t0.rows[id].track)
    ensures d in t.rows <==> d in t0.rows
    ensures d in t.rows ==> t.rows[d] == t0.rows[d]
    ensures d !in t.rows ==> NoRowAt(t0.rows, t0.rows[id].track, target)
    ensures t.rows[id] == t0.rows[id]
  {
  }

  lemma OneMoreMerged(t0: Tables, t: Tables, t': Tables, source: int, target: int, done: set<nat>, id: nat, d: nat)
    requires Unique(t0.rows) && source != target && MergedSoFar(t0, t, source, target, done) && RowMerged(t, t', id, d, target)
    requires id in t0.rows && t0.rows[id].gid == source && id !in done
    requires forall k :: k in done ==> k in t0.rows && t0.rows[k].gid == source
    requires forall k :: k in t0.rows ==> k in t.rows && t.rows[k].track == t0.rows[k].track && t.rows[k].gid == t0.rows[k].gid
    ensures MergedSoFar(t0, t', source, target, done + {id})
  {
    hide RowsHanded, LinksHanded, RowMerged, HandedTo;
    TargetIsAsItWas(t0, t, t', source, target, done, id, d);
    OneMoreRow(t0, t, t', source, target, done, id, d);
    LinksFollowOn(t0, t, t', source, target, done, id, d);
  }

  lemma OneMoreRow(t0: Tables, t: Tables, t': Tables, source: int, target: int, done: set<nat>, id: nat, d: nat)
    requires source != target && RowsHanded(t0.rows, t.rows, target, done) && RowMerged(t, t', id, d, target)
    requires id in t0.rows && t0.rows[id].gid == source && id !in done && t.rows[id] == t0.rows[id]
    requires forall k :: k in done ==> k in t0.rows && t0.rows[k].gid == source
    requires !OnTrackOf(t0.rows, done, t0.rows[id].track)
    requires d in t.rows <==> d in t0.rows
    requires d in t.rows ==> t.rows[d] == t0.rows[d]
    requires d !in t.rows ==> NoRowAt(t0.rows, t0.rows[id].track, target)
    ensures RowsHanded(t0.rows, t'.rows, target, done + {id})
  {
    hide NoRowAt, OnTrackOf, RepointedSources, RepointedChanges, HandedTo, TakenOver, HandedOver;
    TrackOfOneMore(t0.rows, done, id);
    OneHandedOver(t0, t, t', target, id, d);
    forall k | k in done
      ensures HandedTo(t0.rows, t'.rows, k, target)
    {
      OnTrackOfIt(t0.rows, done, k);
      StaysHandedOver(t0, t, t', target, id, d, k);
    }
    assert d in t.rows ==> t.rows[d].gid == target && t.rows[d].track == t0.rows[id].track;
    NewRowIsAtTarget(t, t', id, d, target);
  }

  lemma NewRowIsAtTarget(t: Tables, t': Tables, id: nat, d: nat, target: int)
    requires RowMerged(t, t', id, d, target) && id != d
    ensures d in t'.rows && t'.rows[d].gid == target && t'.rows[d].track == t.rows[id].track
    ensures forall k :: k in t'.rows <==> k in t.rows || k == d
    ensures forall k :: k in t.rows && k != id && k != d ==> t'.rows[k] == t.rows[k]
  {
    hide NoRowAt, RepointedSources, RepointedChanges;
  }

  lemma OneHandedOver(t0: Tables, t: Tables, t': Tables, target: int, id: nat, d: nat)
    requires RowMerged(t, t', id, d, target) && id in t0.rows && t.rows[id] == t0.rows[id] && t.rows[id].gid != target
    requires d in t.rows <==> d in t0.rows
    requires d in t.rows ==> t.rows[d] == t0.rows[d]
    requires d !in t.rows ==> NoRowAt(t0.rows, t0.rows[id].track, target)
    ensures id != d && HandedTo(t0.rows, t'.rows, id, target)
  {
    hide NoRowAt, RepointedSources, RepointedChanges;
  }

  lemma StaysHandedOver(t0: Tables, t: Tables, t': Tables, target: int, id: nat, d: nat, k: nat)
    requires HandedTo(t0.rows, t.rows, k, target) && RowMerged(t, t', id, d, target) && id in t.rows
    requires t.rows[id].gid != target && t0.rows[k].gid != target && k != id && t.rows[id].track != t0.rows[k].track
    ensures HandedTo(t0.rows, t'.rows, k, target)
  {
    hide NoRowAt, RepointedSources, RepointedChanges;
  }

  lemma OnTrackOfIt(rows: Rows, done: set<nat>, k: nat)
    requires k in done && k in rows
    ensures OnTrackOf(rows, done, rows[k].track)
  {
  }

  lemma TrackOfOneMore(rows: Rows, done: set<nat>, id: nat)
    requires id in rows
    ensures forall track :: OnTrackOf(rows, done + {id}, track) <==> OnTrackOf(rows, done, track) || track == rows[id].track
  {
  }

  lemma LinksFollowOn(t0: Tables, t: Tables, t': Tables, source: int, target: int, done: set<nat>, id: nat, d: nat)
    requires source != target && MergedSoFar(t0, t, source, target, done) && RowMerged(t, t', id, d, target)
    requires id in t0.rows && t0.rows[id].gid == source && id !in done && t.rows[id] == t0.rows[id]
    requires forall k :: k in done ==> k in t0.rows && t0.rows[k].gid == source
    ensures LinksHanded(t0, t', done + {id})
  {
    hide NoRowAt, OnTrackOf;
    forall l: nat
      ensures Handed(t'.rows, done + {id}, l) == if Handed(t.rows, done, l) == id then d else Handed(t.rows, done, l)
    {
      if l in done {
        assert HandedTo(t0.rows, t.rows, l, target);
      }
    }
  }

  lemma RoundDone(t0: Tables, t: Tables, t': Tables, source: int, target: int, done: set<nat>, todo: set<nat>, id: nat, d: nat)
    requires Consistent(t0) && Consistent(t) && Grown(t0.rows, t.rows, todo, target) && RowMerged(t, t', id, d, target)
    requires todo <= WithGid(t0.rows, source) && done == WithGid(t0.rows, source) - todo && id in todo
    ensures Grown(t0.rows, t'.rows, todo - {id}, target)
    ensures source != target && MergedSoFar(t0, t, source, target, done) ==> MergedSoFar(t0, t', source, target, done + {id})
    ensures source == target && SelfMerged(t0, t, done) ==> SelfMerged(t0, t', done + {id})
  {
    hide RowMerged, MergedSoFar, SelfMerged, Counted;
    OthersUntouched(t0, t, t', source, target, todo, id, d);
    if source != target && MergedSoFar(t0, t, source, target, done) {
      OneMoreMerged(t0, t, t', source, target, done, id, d);
    }
    if source == target && SelfMerged(t0, t, done) {
      OneMoreSelfMerged(t0, t, t', target, done, id, d);
    }
  }

  /** An MBID merged into itself: its rows come to refer to themselves, and that is all. */
  ghost predicate SelfMerged(t: Tables, t': Tables, done: set<nat>) {
    && t'.sources == t.sources && t'.changes == t.changes
    && (forall id :: id in t'.rows <==> id in t.rows)
    && (forall id :: id in t.rows && id in t'.rows ==>
          t'.rows[id] == if id in done then t.rows[id].(mergedInto := Some(id)) else t.rows[id])
  }

  lemma OneMoreSelfMerged(t0: Tables, t: Tables, t': Tables, target: int, done: set<nat>, id: nat, d: nat)
    requires Unique(t.rows) && SelfMerged(t0, t, done) && RowMerged(t, t', id, d, target)
    requires id in t.rows && t.rows[id].gid == target
    ensures SelfMerged(t0, t', done + {id})
  {
    hide TakenOver, HandedOver;
    assert id == d;
    assert RepointedSources(t.sources, {id}, id) == t.sources;
    assert RepointedChanges(t.changes, {id}, id) == t.changes;
  }

  ghost predicate AreMergeable(rows: Rows, ids: set<nat>, target: int) {
    forall id :: id in ids ==> id in rows && RowMergeable(rows, id, target)
  }

  lemma OneMoreMergeable(rows: Rows, source: int, target: int, ids: set<nat>, id: nat)
    requires AreMergeable(rows, ids, target) && id in WithGid(rows, source)
    ensures id in rows
    ensures if RowMergeable(rows, id, target) then AreMergeable(rows, ids + {id}, target) else !Mergeable(rows, source, target)
  {
  }

  lemma AllMergeable(rows: Rows, source: int, target: int)
    requires AreMergeable(rows, WithGid(rows, source), target)
    ensures Mergeable(rows, source, target)
  {
  }
}
