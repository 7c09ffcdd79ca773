/** The tables of tracks, links and metas together, under any sequence of the operations that
    change them: `_insert_gid`, `disable_mbid`, `merge_mbids`, `merge_tracks`, the backfill and
    the insertions, from the empty database. */
module Databases {
  import opened LinkLaws
  import opened LinkTables
  import opened Links
  import opened MetaBackfill
  import Redirects
  import opened TrackStores
  import opened Wrappers

  datatype Kind = Mbid | Puid | MetaId | ForeignId

  /** One transaction. `source` and `submission` may be missing, tracks and metas may not
      exist, and uniqueness may be violated: the operation then fails. */
  datatype Operation =
    | NewTrack(gid: int)
    | NewFingerprint(id: nat, track: int)
    | NewMeta(content: string, withGid: bool)
    | NewResult(result: int, meta: nat)
    | NewLink(kind: Kind, track: int, gid: int, submission: Option<int>, source: Option<int>)
    | DisableMbid(mbid: int)
    | MergeMbids(mergedMbid: int, target: int)
    | MergeTracks(target: int, sources: set<int>)
    | BackfillGids(limit: nat)

  /** All the tables. */
  datatype Contents = Contents(
    tracks: Redirects.Tracks,
    fingerprints: Redirects.Fingerprints,
    mbids: Tables,
    puids: Tables,
    metas: Tables,
    foreignIds: Tables,
    metaRows: Metas,
    results: map<int, MetaBackfill.Result>,
    history: map<nat, int>,
    lastMetaId: nat)

  const NO_LINKS := Tables(map[], [], [])
  const EMPTY := Contents(map[], map[], NO_LINKS, NO_LINKS, NO_LINKS, NO_LINKS, map[], map[], map[], 0)

  function LinksOf(c: Contents, kind: Kind): Tables {
    match kind
    case Mbid => c.mbids
    case Puid => c.puids
    case MetaId => c.metas
    case ForeignId => c.foreignIds
  }

  function WithLinks(c: Contents, kind: Kind, t: Tables): Contents {
    match kind
    case Mbid => c.(mbids := t)
    case Puid => c.(puids := t)
    case MetaId => c.(metas := t)
    case ForeignId => c.(foreignIds := t)
  }

  function WorldOf(c: Contents): World {
    World(c.metas, c.metaRows, c.results, c.history)
  }

  /** What an operation makes of the tables; nothing else changes. */
  ghost predicate Effect(hash: Hash, op: Operation, c: Contents, c': Contents) {
    match op
    case NewTrack(gid) =>
      if exists t :: t in c.tracks && c.tracks[t].gid == gid then c' == c
      else exists id :: id !in c.tracks && c' == c.(tracks := c.tracks[id := Redirects.Track(gid, None)])
    case NewFingerprint(id, track) =>
      c' == if id !in c.fingerprints && track in c.tracks then c.(fingerprints := c.fingerprints[id := track]) else c
    case NewMeta(content, withGid) => MetaAdded(hash, content, withGid, c, c')
    case NewResult(submission, meta) =>
      c' == if submission !in c.results && meta in c.metaRows
            then c.(results := c.results[submission := MetaBackfill.Result(Some(meta), c.metaRows[meta].gid)]) else c
    case NewLink(kind, track, gid, submission, source) => LinkAdded(kind, track, gid, submission, source, c, c')
    case DisableMbid(mbid) =>
      && c' == c.(mbids := c'.mbids)
      && c'.mbids.rows == Disabled(c.mbids.rows, mbid) && c'.mbids.sources == c.mbids.sources
      && exists added :: c'.mbids.changes == c.mbids.changes + added && MarksExactly(added, WithGid(c.mbids.rows, mbid))
    case MergeMbids(source, target) =>
      && c' == c.(mbids := c'.mbids)
      && (if !Mergeable(c.mbids.rows, source, target) then c'.mbids == c.mbids
          else if source == target then SelfMerged(c.mbids, c'.mbids, WithGid(c.mbids.rows, source))
          else MbidsMerged(c.mbids, c'.mbids, source, target))
    case MergeTracks(target, sources) => AllMerged(target, sources, c, c')
    case BackfillGids(limit) =>
      && c' == c.(metas := c'.metas, metaRows := c'.metaRows, results := c'.results, history := c'.history,
                  lastMetaId := c'.lastMetaId)
      && Kept(hash, WorldOf(c), WorldOf(c'))
      && 0 !in c.metaRows && c'.metaRows == RunMetas(hash, c.metaRows, c.lastMetaId, limit)
  }

  ghost predicate MetaAdded(hash: Hash, content: string, withGid: bool, c: Contents, c': Contents) {
    if withGid && Taken(c.metaRows, hash(content)) then c' == c
    else
      exists id: nat ::
        && id !in c.metaRows && id !in c.history
        && c' == c.(metaRows := c.metaRows[id := Meta(content, if withGid then Some(hash(content)) else None)])
  }

  ghost predicate LinkAdded(kind: Kind, track: int, gid: int, submission: Option<int>, source: Option<int>,
                            c: Contents, c': Contents)
  {
    if track in c.tracks && (kind == MetaId ==> 0 <= gid && gid in c.metaRows)
       && source.Some? && (kind == Mbid || submission.Some?) then
      && c' == WithLinks(c, kind, LinksOf(c', kind))
      && exists id: nat ::
           && Voted(LinksOf(c, kind), LinksOf(c', kind), id, track, gid)
           && LinksOf(c', kind).sources == LinksOf(c, kind).sources + [Source(id, submission, source.value)]
    else c' == c
  }

  ghost predicate AllMerged(target: int, sources: set<int>, c: Contents, c': Contents) {
    var ok, all := (target in c.tracks || !Redirects.Moves(c.tracks, sources)) && ReferencesSurvive(c.mbids.rows, sources + {target}),
                   sources + {target};
    && c' == c.(tracks := if ok then Redirects.Repointed(c.tracks, sources, target) else c.tracks,
                fingerprints := if ok then Redirects.Moved(c.fingerprints, sources, target) else c.fingerprints,
                mbids := c'.mbids, puids := c'.puids, metas := c'.metas, foreignIds := c'.foreignIds)
    && LinksMerged(ok, c.mbids, c'.mbids, all, target, true) && LinksMerged(ok, c.puids, c'.puids, all, target, false)
    && LinksMerged(ok, c.metas, c'.metas, all, target, false)
    && LinksMerged(ok, c.foreignIds, c'.foreignIds, all, target, false)
  }

  class Database {
    const store: TrackStore
    const backfill: Backfill
    var nextMeta: nat

    constructor (hash: Hash)
      ensures Valid() && fresh(Repr()) && backfill.hash == hash && All() == EMPTY
    {
      hide LinkTable.Valid, RedirectsExist, TrackStores.GidsUnique, OnTracks;
      var s := new TrackStore();
      store := s;
      backfill := new Backfill(hash, s.metas);
      nextMeta := 1;
    }

    ghost function Repr(): set<object>
      reads this, store
    {
      {store, backfill} + store.Repr()
    }

    /** Everything either class promises, over one table of metas. */
    ghost predicate Valid()
      reads this, Repr()
    {
      && store.Valid() && backfill.links == store.metas && backfill.Valid()
      && DoneUpTo(backfill.metas, backfill.lastMetaId) && backfill.lastMetaId < nextMeta
      && (forall m :: m in backfill.metas || m in backfill.history ==> m < nextMeta)
    }

    ghost function All(): Contents
      reads this, Repr()
    {
      Contents(store.tracks, store.fingerprints, store.mbids.Snapshot(), store.puids.Snapshot(), store.metas.Snapshot(),
               store.foreignIds.Snapshot(), backfill.metas, backfill.results, backfill.history, backfill.lastMetaId)
    }

    method Execute(op: Operation)
      requires Valid()
      modifies this, Repr()
      ensures Valid() && Effect(backfill.hash, op, old(All()), All())
    {
      hide Effect;
      match op {
        case NewTrack(gid) => AddTrack(gid);
        case NewFingerprint(id, track) => AddFingerprint(id, track);
        case NewMeta(content, withGid) => AddMeta(content, withGid);
        case NewResult(submission, meta) => AddResult(submission, meta);
        case NewLink(kind, track, gid, submission, source) => AddLink(kind, track, gid, submission, source);
        case DisableMbid(mbid) => Disable(mbid);
        case MergeMbids(source, target) => MergeMbidRows(source, target);
        case MergeTracks(target, sources) => MergeTrackRows(target, sources);
        case BackfillGids(limit) => RunBackfill(limit);
      }
    }

    method AddTrack(gid: int)
      requires Valid()
      modifies store
      ensures Valid() && Effect(backfill.hash, NewTrack(gid), old(All()), All())
    {
      hide Sound, LinkTable.Valid;
      var ok, id := store.InsertTrack(gid);
      assert ok ==> All() == old(All()).(tracks := old(All()).tracks[id := Redirects.Track(gid, None)]);
    }

    method AddFingerprint(id: nat, track: int)
      requires Valid()
      modifies store
      ensures Valid() && Effect(backfill.hash, NewFingerprint(id, track), old(All()), All())
    {
      hide Sound, LinkTable.Valid;
      if id !in store.fingerprints {
        var _ := store.AddFingerprint(id, track);
      }
    }

    /** `insert_meta`, and with a gid `find_or_insert_meta`. */
    method AddMeta(content: string, withGid: bool)
      requires Valid()
      modifies this`nextMeta, backfill`metas
      ensures Valid() && Effect(backfill.hash, NewMeta(content, withGid), old(All()), All())
    {
      hide LinkTable.Valid, Consistent, OnTracks, RedirectsExist, Redirects.Resolve, LinkAdded, AllMerged, Disabled, MarksExactly;
      var gid := backfill.hash(content);
      if withGid && (exists n :: n in backfill.metas && backfill.metas[n].gid == Some(gid)) {
        return;
      }
      var meta := Meta(content, if withGid then Some(gid) else None);
      MetaIsNew(backfill.Snapshot(), nextMeta, meta);
      backfill.metas := backfill.metas[nextMeta := meta];
      nextMeta := nextMeta + 1;
    }

    /** The meta columns of a new row of submission_result. */
    method AddResult(submission: int, meta: nat)
      requires Valid()
      modifies backfill`results
      ensures Valid() && Effect(backfill.hash, NewResult(submission, meta), old(All()), All())
    {
      hide LinkTable.Valid, Consistent, OnTracks, RedirectsExist;
      if submission !in backfill.results && meta in backfill.metas {
        backfill.results := backfill.results[submission := Result(Some(meta), backfill.metas[meta].gid)];
      }
    }

    method AddLink(kind: Kind, track: int, gid: int, submission: Option<int>, source: Option<int>)
      requires Valid()
      modifies store.Repr()
      ensures Valid() && Effect(backfill.hash, NewLink(kind, track, gid, submission, source), old(All()), All())
    {
      hide Voted, Sound, LinkTable.Valid, RedirectsExist, OnTracks;
      if track !in store.tracks {
        return;
      }
      if kind == MetaId && (gid < 0 || gid !in backfill.metas) {
        return;
      }
      InsertLink(kind, track, gid, submission, source);
    }

    function Links(kind: Kind): LinkTable
      reads store
    {
      match kind
      case Mbid => store.mbids
      case Puid => store.puids
      case MetaId => store.metas
      case ForeignId => store.foreignIds
    }

    method InsertLink(kind: Kind, track: int, gid: int, submission: Option<int>, source: Option<int>)
      requires Valid() && track in store.tracks && (kind == MetaId ==> 0 <= gid && gid in backfill.metas)
      modifies store.Repr()
      ensures Valid() && LinkAdded(kind, track, gid, submission, source, old(All()), All())
    {
      hide Sound, Consistent, RedirectsExist, TrackStores.GidsUnique, MetaBackfill.GidsUnique;
      ghost var w := backfill.Snapshot();
      var _, _ := Links(kind).InsertGid(track, gid, submission, source);
      if kind == MetaId {
        LinksStillResolve(w, backfill.Snapshot());
      }
    }

    method Disable(mbid: int)
      requires Valid()
      modifies store.mbids
      ensures Valid() && Effect(backfill.hash, DisableMbid(mbid), old(All()), All())
    {
      hide Sound, Consistent, RedirectsExist, TrackStores.GidsUnique, MetaBackfill.GidsUnique, MarksExactly;
      store.mbids.DisableMbid(mbid);
      assert WithGid(store.mbids.rows, mbid) == WithGid(old(store.mbids.rows), mbid);
    }

    method MergeMbidRows(source: int, target: int)
      requires Valid()
      modifies store.mbids
      ensures Valid() && Effect(backfill.hash, MergeMbids(source, target), old(All()), All())
    {
      hide Sound, Consistent, RedirectsExist, TrackStores.GidsUnique, MetaBackfill.GidsUnique, MbidsMerged, SelfMerged, Mergeable,
           IsRowAt, LinkAdded, AllMerged, MetaAdded;
      ghost var t := store.mbids.Snapshot();
      var ok := store.mbids.MergeMbids(source, target);
      if ok {
        MbidMergeStaysOnTracks(store.tracks, t, store.mbids.Snapshot(), source, target);
      }
    }

    method MergeTrackRows(target: int, sources: set<int>)
      requires Valid()
      modifies store, store.Repr()
      ensures Valid() && Effect(backfill.hash, MergeTracks(target, sources), old(All()), All())
    {
      hide Sound, Consistent, RedirectsExist, TrackStores.GidsUnique, MetaBackfill.GidsUnique, TracksMerged, OnTracks;
      ghost var w := backfill.Snapshot();
      var ok := store.MergeTracks(target, sources);
      MergeKeepsLinksResolving(w, backfill.Snapshot(), ok, sources + {target}, target);
    }

    method RunBackfill(limit: nat)
      requires Valid()
      modifies backfill, store.metas
      ensures Valid() && Effect(backfill.hash, BackfillGids(limit), old(All()), All())
    {
      hide RunMetas, Sound, Consistent, RedirectsExist, TrackStores.GidsUnique, MetaBackfill.GidsUnique, Kept, DoneUpTo, OnTracks;
      ghost var w := backfill.Snapshot();
      backfill.Run(limit);
      BackfillStaysOnTracks(backfill.hash, store.tracks, w, backfill.Snapshot());
      BackfillMakesNoIds(backfill.hash, w, backfill.Snapshot());
    }
  }

  /** From the empty database, through any operations, each of which has its effect: every link row of all four tables counts
      the source rows that point at it, no source or change row points at nothing, no track has
      a gid twice, and no link or result refers to a meta that does not exist. */
  method RunAll(hash: Hash, operations: seq<Operation>) returns (db: Database, ghost states: seq<Contents>)
    ensures db.Valid() && |states| == |operations| + 1 && states[0] == EMPTY && states[|operations|] == db.All()
    ensures forall i :: 0 <= i < |operations| ==> Effect(hash, operations[i], states[i], states[i + 1])
    ensures Consistent(db.store.mbids.Snapshot()) && Consistent(db.store.puids.Snapshot())
    ensures Consistent(db.store.metas.Snapshot()) && Consistent(db.store.foreignIds.Snapshot())
    ensures LinksResolve(db.backfill.Snapshot()) && ResultsResolve(db.backfill.Snapshot())
  {
    hide Effect;
    db := new Database(hash);
    states := [db.All()];
    for i := 0 to |operations|
      invariant db.Valid() && fresh(db) && fresh(db.Repr()) && db.backfill.hash == hash
      invariant |states| == i + 1 && states[0] == EMPTY && states[i] == db.All()
      invariant forall j :: 0 <= j < i ==> Effect(hash, operations[j], states[j], states[j + 1])
    {
      db.Execute(operations[i]);
      states := states + [db.All()];
    }
  }

  // ----- what one class's operation keeps of the other --------------------------------------

  lemma MetaIsNew(w: World, id: nat, meta: Meta)
    requires Sound(w) && id !in w.metas && id !in w.history && id > 0
    requires meta.gid.Some? ==> !Taken(w.metas, meta.gid.value)
    ensures Sound(w.(metas := w.metas[id := meta]))
  {
    hide Consistent;
  }

  lemma LinksStillResolve(w: World, w': World)
    requires Sound(w) && w'.metas == w.metas && w'.results == w.results && w'.history == w.history && Consistent(w'.links)
    requires forall id :: id in w'.links.rows ==>
               w'.links.rows[id].gid in w.metas || (id in w.links.rows && w'.links.rows[id].gid == w.links.rows[id].gid)
    ensures Sound(w')
  {
    hide Consistent;
  }

  lemma MergeKeepsLinksResolving(w: World, w': World, ok: bool, tracks: set<int>, target: int)
    requires Sound(w) && w'.metas == w.metas && w'.results == w.results && w'.history == w.history && Consistent(w'.links)
    requires LinksMerged(ok, w.links, w'.links, tracks, target, false)
    ensures Sound(w')
  {
    hide Consistent, Survives, Home, Group;
    LinksStillResolve(w, w');
  }

  lemma MbidMergeStaysOnTracks(tracks: Redirects.Tracks, t: Tables, t': Tables, source: int, target: int)
    requires Consistent(t) && OnTracks(tracks, t.rows)
    requires if source == target then SelfMerged(t, t', WithGid(t.rows, source)) else MbidsMerged(t, t', source, target)
    ensures OnTracks(tracks, t'.rows)
  {
    hide LinksHanded, Counted, MergedIntoExists;
    forall id | id in t'.rows
      ensures t'.rows[id].track in tracks
    {
      if source != target && id in t.rows {
        LinkLaws.PlacesStay(t, t', source, target, id);
      }
    }
  }

  lemma BackfillStaysOnTracks(hash: Hash, tracks: Redirects.Tracks, w: World, w': World)
    requires Sound(w) && Sound(w') && Kept(hash, w, w') && OnTracks(tracks, w.links.rows)
    ensures OnTracks(tracks, w'.links.rows)
  {
    hide Consistent, MetasKept, SourcesKept, ResultsKept, Labelled;
    forall id | id in w'.links.rows
      ensures w'.links.rows[id].track in tracks
    {
      assert Place(hash, w', id) in Places(hash, w');
      var id0 :| id0 in w.links.rows && Place(hash, w, id0) == Place(hash, w', id);
    }
  }

  lemma BackfillMakesNoIds(hash: Hash, w: World, w': World)
    requires Kept(hash, w, w')
    ensures forall m :: m in w'.metas || m in w'.history ==> m in w.metas || m in w.history
  {
    hide SourcesKept, ResultsKept, Labelled, Places;
  }
}
