/** Rows of the tables that link tracks to identifiers, their source rows, and the
    arithmetic that ties the two together. */
module Links {
  import opened Sets
  import opened Wrappers

  /** A row of track_mbid, track_puid, track_meta or track_foreignid. Only track_mbid has
      the last two columns; elsewhere they keep their defaults. */
  datatype Link = Link(track: int, gid: int, count: int, disabled: bool, mergedInto: Option<nat>)

  /** A row of the matching ..._source table. */
  datatype Source = Source(link: nat, submission: Option<int>, source: int)

  /** A row of track_mbid_change. */
  datatype Change = Change(link: nat, disabled: bool)

  datatype Tables = Tables(rows: map<nat, Link>, sources: seq<Source>, changes: seq<Change>)

  type Rows = map<nat, Link>

  // ----- what the schema enforces ------------------------------------------------------

  /** The unique index on (track, gid). */
  ghost predicate Unique(rows: Rows) {
    forall i, j :: i in rows && j in rows && rows[i].track == rows[j].track && rows[i].gid == rows[j].gid ==> i == j
  }

  /** The foreign key of track_mbid.merged_into. */
  ghost predicate MergedIntoExists(rows: Rows) {
    forall i :: i in rows && rows[i].mergedInto.Some? ==> rows[i].mergedInto.value in rows
  }

  // ----- counting -----------------------------------------------------------------------

  /** How many source rows point at one of these links. */
  function CountIn(sources: seq<Source>, ids: set<nat>): nat {
    if sources == [] then 0
    else CountIn(sources[..|sources| - 1], ids) + if sources[|sources| - 1].link in ids then 1 else 0
  }

  /** `sum(submission_count)` */
  function SumCounts(rows: Rows, ids: set<nat>): int
    requires ids <= rows.Keys
  {
    if ids == {} then 0 else rows[Least(ids)].count + SumCounts(rows, ids - {Least(ids)})
  }

  /** Every link counts its sources, and no source dangles. */
  ghost predicate Counted(t: Tables) {
    && (forall id :: id in t.rows ==> t.rows[id].count == CountIn(t.sources, {id}))
    && (forall i :: 0 <= i < |t.sources| ==> t.sources[i].link in t.rows)
    && (forall i :: 0 <= i < |t.changes| ==> t.changes[i].link in t.rows)
  }

  ghost predicate Consistent(t: Tables) {
    Unique(t.rows) && MergedIntoExists(t.rows) && Counted(t)
  }

  lemma {:induction false} CountDisjoint(sources: seq<Source>, a: set<nat>, b: set<nat>)
    requires a !! b
    ensures CountIn(sources, a + b) == CountIn(sources, a) + CountIn(sources, b)
  {
    if sources != [] {
      CountDisjoint(sources[..|sources| - 1], a, b);
    }
  }

  lemma {:induction false} CountNone(sources: seq<Source>, ids: set<nat>)
    requires forall i :: 0 <= i < |sources| ==> sources[i].link !in ids
    ensures CountIn(sources, ids) == 0
  {
    if sources != [] {
      CountNone(sources[..|sources| - 1], ids);
    }
  }

  /** Over consistent tables the sum of counts is the number of sources. */
  lemma {:induction false} SumIsCount(t: Tables, ids: set<nat>)
    requires Counted(t) && ids <= t.rows.Keys
    ensures SumCounts(t.rows, ids) == CountIn(t.sources, ids)
  {
    if ids == {} {
      CountNone(t.sources, ids);
    } else {
      var x := Least(ids);
      SumIsCount(t, ids - {x});
      CountDisjoint(t.sources, {x}, ids - {x});
      assert {x} + (ids - {x}) == ids;
    }
  }

  /** Sources that follow their links are counted where they went. */
  lemma {:induction false} CountMoved(before: seq<Source>, after: seq<Source>, ids: set<nat>, id: nat)
    requires |before| == |after|
    requires forall i :: 0 <= i < |before| ==> (after[i].link == id <==> before[i].link in ids)
    ensures CountIn(after, {id}) == CountIn(before, ids)
  {
    if before != [] {
      CountMoved(before[..|before| - 1], after[..|after| - 1], ids, id);
    }
  }

  lemma CountSnoc(sources: seq<Source>, s: Source, ids: set<nat>)
    ensures CountIn(sources + [s], ids) == CountIn(sources, ids) + if s.link in ids then 1 else 0
  {
    assert (sources + [s])[..|sources|] == sources;
  }

  // ----- merging the identifiers of tracks ------------------------------------------------

  /** The rows of some tracks that carry one gid: a group of the GROUP BY. */
  function Group(rows: Rows, tracks: set<int>, gid: int): set<nat> {
    set id | id in rows && rows[id].track in tracks && rows[id].gid == gid
  }

  /** The row a link ends up in: the lowest id of its group. */
  function Home(rows: Rows, tracks: set<int>, id: nat): nat {
    if id in rows && rows[id].track in tracks && id in Group(rows, tracks, rows[id].gid) then
      Least(Group(rows, tracks, rows[id].gid))
    else id
  }

  predicate AllDisabled(rows: Rows, ids: set<nat>)
    requires ids <= rows.Keys
  {
    forall id :: id in ids ==> rows[id].disabled
  }

  /** The row that stands for a group after the merge. */
  function MergedRow(rows: Rows, tracks: set<int>, target: int, isMbid: bool, id: nat): Link
    requires id in rows
  {
    var ids := Group(rows, tracks, rows[id].gid);
    var row := rows[id].(track := target, count := SumCounts(rows, ids));
    if isMbid then row.(disabled := AllDisabled(rows, ids)) else row
  }

  predicate Survives(rows: Rows, tracks: set<int>, id: nat)
    requires id in rows
  {
    rows[id].track !in tracks || Home(rows, tracks, id) == id
  }

  /** The pure group-by that the delete-then-update loops of `_merge_tracks_gids` amount to:
      one row per gid on the target, with the lowest id, the summed count, and disabled
      only if all were; other tracks untouched; sources and changes follow their gid. */
  ghost predicate TracksMerged(t: Tables, t': Tables, tracks: set<int>, target: int, isMbid: bool) {
    && (forall id :: id in t'.rows <==> id in t.rows && Survives(t.rows, tracks, id))
    && (forall id :: id in t'.rows && id in t.rows ==>
          t'.rows[id] == if t.rows[id].track in tracks then MergedRow(t.rows, tracks, target, isMbid, id) else t.rows[id])
    && |t'.sources| == |t.sources|
    && (forall i :: 0 <= i < |t.sources| ==> t'.sources[i] == t.sources[i].(link := Home(t.rows, tracks, t.sources[i].link)))
    && |t'.changes| == |t.changes|
    && (forall i :: 0 <= i < |t.changes| ==>
          t'.changes[i] == if isMbid then t.changes[i].(link := Home(t.rows, tracks, t.changes[i].link)) else t.changes[i])
  }

  lemma HomeIsInGroup(rows: Rows, tracks: set<int>, id: nat)
    requires id in rows && rows[id].track in tracks
    ensures
      var h := Home(rows, tracks, id);
      h in Group(rows, tracks, rows[id].gid) && h in rows && rows[h].track in tracks && rows[h].gid == rows[id].gid
    ensures Home(rows, tracks, Home(rows, tracks, id)) == Home(rows, tracks, id)
  {
  }

  /** Two rows of the merged tracks share a home exactly when they share a gid. */
  lemma SameHomeIffSameGid(rows: Rows, tracks: set<int>, i: nat, j: nat)
    requires i in rows && j in rows && rows[i].track in tracks && rows[j].track in tracks
    ensures Home(rows, tracks, i) == Home(rows, tracks, j) <==> rows[i].gid == rows[j].gid
  {
    HomeIsInGroup(rows, tracks, i);
    HomeIsInGroup(rows, tracks, j);
  }

  /** The merge keeps the tables consistent, provided no row that stays refers to one that
      goes. The target is one of the tracks. */
  lemma MergeKeepsConsistent(t: Tables, t': Tables, tracks: set<int>, target: int, isMbid: bool)
    requires Consistent(t) && TracksMerged(t, t', tracks, target, isMbid) && target in tracks
    requires MergedIntoExists(t'.rows)
    requires isMbid || t.changes == []
    ensures Consistent(t')
  {
    MergeKeepsUnique(t, t', tracks, target, isMbid);
    forall i | 0 <= i < |t'.sources|
      ensures t'.sources[i].link in t'.rows
    {
      HomeSurvives(t.rows, tracks, t.sources[i].link);
    }
    forall i | 0 <= i < |t'.changes|
      ensures t'.changes[i].link in t'.rows
    {
      HomeSurvives(t.rows, tracks, t.changes[i].link);
    }
    forall id | id in t'.rows
      ensures t'.rows[id].count == CountIn(t'.sources, {id})
    {
      MergeKeepsCount(t, t', tracks, target, isMbid, id);
    }
  }

  lemma HomeSurvives(rows: Rows, tracks: set<int>, id: nat)
    requires id in rows
    ensures Home(rows, tracks, id) in rows && Survives(rows, tracks, Home(rows, tracks, id))
  {
    if rows[id].track in tracks {
      HomeIsInGroup(rows, tracks, id);
    }
  }

  lemma MergeKeepsUnique(t: Tables, t': Tables, tracks: set<int>, target: int, isMbid: bool)
    requires Unique(t.rows) && TracksMerged(t, t', tracks, target, isMbid) && target in tracks
    ensures Unique(t'.rows)
  {
    forall i, j | i in t'.rows && j in t'.rows && t'.rows[i].track == t'.rows[j].track && t'.rows[i].gid == t'.rows[j].gid
      ensures i == j
    {
      if t.rows[i].track in tracks {
        assert t.rows[j].track in tracks;
        SameHomeIffSameGid(t.rows, tracks, i, j);
      }
    }
  }

  lemma MergeKeepsCount(t: Tables, t': Tables, tracks: set<int>, target: int, isMbid: bool, id: nat)
    requires Counted(t) && TracksMerged(t, t', tracks, target, isMbid) && id in t'.rows
    ensures t'.rows[id].count == CountIn(t'.sources, {id})
  {
    var ids := if t.rows[id].track in tracks then Group(t.rows, tracks, t.rows[id].gid) else {id};
    forall i | 0 <= i < |t.sources|
      ensures t'.sources[i].link == id <==> t.sources[i].link in ids
    {
      var l := t.sources[i].link;
      if t.rows[l].track in tracks {
        HomeIsInGroup(t.rows, tracks, l);
        if t.rows[id].track in tracks {
          SameHomeIffSameGid(t.rows, tracks, l, id);
        }
      }
    }
    CountMoved(t.sources, t'.sources, ids, id);
    SumIsCount(t, ids);
  }
}
