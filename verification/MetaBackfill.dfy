/** acoustid/scripts/backfill_meta_gid.py: give every meta the gid of its content, and fold
    metas with the same content into one. */
module MetaBackfill {
  import opened Sets
  import opened Wrappers
  import opened Links
  import opened LinkTables
  import opened Pages

  /** A row of meta. The content is what `generate_meta_gid` hashes. */
  datatype Meta = Meta(content: string, gid: Option<int>)

  /** The meta columns of a row of submission_result. */
  datatype Result = Result(metaId: Option<nat>, metaGid: Option<int>)

  type Metas = map<nat, Meta>

  /** track_meta with its sources, meta, submission_result and meta_id_history. The gid of a
      link is a meta id here. */
  datatype World = World(links: Tables, metas: Metas, results: map<int, Result>, history: map<nat, int>)

  /** `generate_meta_gid`: some function of the content. */
  type Hash = string -> int

  // ----- what stays true ----------------------------------------------------------------

  /** The gid a meta has or will get. */
  function GidOf(hash: Hash, metas: Metas, meta: nat): int
    requires meta in metas
  {
    if metas[meta].gid.Some? then metas[meta].gid.value else hash(metas[meta].content)
  }

  ghost predicate GidsUnique(metas: Metas) {
    forall m, n :: m in metas && n in metas && metas[m].gid.Some? && metas[m].gid == metas[n].gid ==> m == n
  }

  /** No link refers to a meta that does not exist. */
  ghost predicate LinksResolve(w: World) {
    forall id :: id in w.links.rows ==> w.links.rows[id].gid in w.metas
  }

  ghost predicate ResultsResolve(w: World) {
    forall s :: s in w.results && w.results[s].metaId.Some? ==> w.results[s].metaId.value in w.metas
  }

  ghost predicate Sound(w: World) {
    && Consistent(w.links)
    && GidsUnique(w.metas) && LinksResolve(w) && ResultsResolve(w)
    && w.history.Keys !! w.metas.Keys
    && 0 !in w.metas
  }

  /** Results carry the gid of their meta. */
  ghost predicate Labelled(w: World) {
    forall s :: s in w.results && w.results[s].metaId.Some? && w.results[s].metaId.value in w.metas
                && w.metas[w.results[s].metaId.value].gid.Some? ==>
      w.results[s].metaGid == w.metas[w.results[s].metaId.value].gid
  }

  // ----- what is conserved ----------------------------------------------------------------

  /** Metas keep their content and any gid they have; one that goes leaves its gid in the
      history and another meta that has it. */
  ghost predicate MetasKept(hash: Hash, w: World, w': World) {
    && (forall m :: m in w'.metas ==> m in w.metas && w'.metas[m].content == w.metas[m].content)
    && (forall m :: m in w'.metas && m in w.metas ==> GidOf(hash, w'.metas, m) == GidOf(hash, w.metas, m))
    && (forall m :: m in w.metas && w.metas[m].gid.Some? ==> m in w'.metas && w'.metas[m].gid == w.metas[m].gid)
    && (forall m :: m in w.history ==> m in w'.history && w'.history[m] == w.history[m])
    && (forall m :: m in w'.history ==> m in w.history || m in w.metas)
    && (forall m :: m in w.metas && m !in w'.metas ==>
          m in w'.history && w'.history[m] == GidOf(hash, w.metas, m) && Taken(w'.metas, w'.history[m]))
  }

  ghost predicate Taken(metas: Metas, gid: int) {
    exists n :: n in metas && metas[n].gid == Some(gid)
  }

  /** Every source row stays with its track and gid, whatever row it now points at. */
  ghost predicate SourcesKept(hash: Hash, w: World, w': World) {
    && |w'.links.sources| == |w.links.sources|
    && forall i :: 0 <= i < |w.links.sources| ==>
         && w'.links.sources[i] == w.links.sources[i].(link := w'.links.sources[i].link)
         && SamePlace(hash, w, w', w.links.sources[i].link, w'.links.sources[i].link)
  }

  ghost predicate SamePlace(hash: Hash, w: World, w': World, id: nat, id': nat) {
    Place(hash, w, id).Some? && Place(hash, w', id') == Place(hash, w, id)
  }

  /** The track and gid a link stands for. */
  function Place(hash: Hash, w: World, id: nat): Option<(int, int)> {
    if id in w.links.rows && w.links.rows[id].gid in w.metas then
      Some((w.links.rows[id].track, GidOf(hash, w.metas, w.links.rows[id].gid)))
    else None
  }

  /** The tracks and gids there are links for. */
  ghost function Places(hash: Hash, w: World): set<Option<(int, int)>> {
    set id | id in w.links.rows :: Place(hash, w, id)
  }

  /** Every result keeps the gid of its meta, whatever meta it now refers to. */
  ghost predicate ResultsKept(hash: Hash, w: World, w': World) {
    && w'.results.Keys == w.results.Keys
    && forall s :: s in w.results ==>
         && (w.results[s].metaId.None? ==> w'.results[s] == w.results[s])
         && (w.results[s].metaId.Some? ==> SameGid(hash, w, w', w.results[s].metaId.value, w'.results[s].metaId))
  }

  ghost predicate SameGid(hash: Hash, w: World, w': World, meta: nat, meta': Option<nat>) {
    && meta in w.metas && meta'.Some? && meta'.value in w'.metas
    && GidOf(hash, w'.metas, meta'.value) == GidOf(hash, w.metas, meta)
  }

  ghost predicate Kept(hash: Hash, w: World, w': World) {
    && MetasKept(hash, w, w') && SourcesKept(hash, w, w') && ResultsKept(hash, w, w')
    && Places(hash, w') == Places(hash, w)
    && (Labelled(w) ==> Labelled(w'))
  }

  lemma KeptByNothing(hash: Hash, w: World)
    requires Sound(w)
    ensures Kept(hash, w, w)
  {
    forall i | 0 <= i < |w.links.sources|
      ensures SamePlace(hash, w, w, w.links.sources[i].link, w.links.sources[i].link)
    {
    }
  }

  lemma KeptTransitively(hash: Hash, u: World, v: World, w: World)
    requires Kept(hash, u, v) && Kept(hash, v, w)
    ensures Kept(hash, u, w)
  {
    hide Labelled, Places;
    MetasKeptTransitively(hash, u, v, w);
    SourcesKeptTransitively(hash, u, v, w);
    ResultsKeptTransitively(hash, u, v, w);
  }

  lemma MetasKeptTransitively(hash: Hash, u: World, v: World, w: World)
    requires MetasKept(hash, u, v) && MetasKept(hash, v, w)
    ensures MetasKept(hash, u, w)
  {
    forall m | m in u.metas && m !in w.metas
      ensures m in w.history && w.history[m] == GidOf(hash, u.metas, m) && Taken(w.metas, w.history[m])
    {
      if m !in v.metas {
        var n :| n in v.metas && v.metas[n].gid == Some(v.history[m]);
        assert w.metas[n].gid == Some(w.history[m]);
      }
    }
  }

  lemma SourcesKeptTransitively(hash: Hash, u: World, v: World, w: World)
    requires SourcesKept(hash, u, v) && SourcesKept(hash, v, w)
    ensures SourcesKept(hash, u, w)
  {
    hide Place;
    forall i | 0 <= i < |u.links.sources|
      ensures SamePlace(hash, u, w, u.links.sources[i].link, w.links.sources[i].link)
    {
      assert SamePlace(hash, u, v, u.links.sources[i].link, v.links.sources[i].link);
      assert SamePlace(hash, v, w, v.links.sources[i].link, w.links.sources[i].link);
    }
  }

  lemma ResultsKeptTransitively(hash: Hash, u: World, v: World, w: World)
    requires ResultsKept(hash, u, v) && ResultsKept(hash, v, w)
    ensures ResultsKept(hash, u, w)
  {
  }

  // ----- the votes of a track for a gid -----------------------------------------------------

  /** The links of a track whose meta has or will get this gid. */
  ghost function LinksAt(hash: Hash, w: World, track: int, gid: int): set<nat> {
    set id | id in w.links.rows && Place(hash, w, id) == Some((track, gid))
  }

  lemma {:induction false} CountSame(before: seq<Source>, after: seq<Source>, ids: set<nat>, ids': set<nat>)
    requires |before| == |after|
    requires forall i :: 0 <= i < |before| ==> (after[i].link in ids' <==> before[i].link in ids)
    ensures CountIn(after, ids') == CountIn(before, ids)
  {
    if before != [] {
      CountSame(before[..|before| - 1], after[..|after| - 1], ids, ids');
    }
  }

  /** Whatever keeps all this keeps the number of submissions a track has for each gid. */
  lemma VotesAreConserved(hash: Hash, w: World, w': World, track: int, gid: int)
    requires Sound(w) && Sound(w') && Kept(hash, w, w')
    ensures SumCounts(w'.links.rows, LinksAt(hash, w', track, gid)) == SumCounts(w.links.rows, LinksAt(hash, w, track, gid))
  {
    hide MetasKept, ResultsKept, Labelled, Places;
    var ids, ids' := LinksAt(hash, w, track, gid), LinksAt(hash, w', track, gid);
    forall i | 0 <= i < |w.links.sources|
      ensures w'.links.sources[i].link in ids' <==> w.links.sources[i].link in ids
    {
      assert SamePlace(hash, w, w', w.links.sources[i].link, w'.links.sources[i].link);
    }
    CountSame(w.links.sources, w'.links.sources, ids, ids');
    SumIsCount(w.links, ids);
    SumIsCount(w'.links, ids');
  }

  // ----- the statements, one by one ---------------------------------------------------------

  /** `update submission_result set meta_id = n, meta_gid = gid where meta_id = m` */
  function ResultsMoved(results: map<int, Result>, m: nat, n: nat, gid: int): map<int, Result> {
    map s | s in results :: if results[s].metaId == Some(m) then Result(Some(n), Some(gid)) else results[s]
  }

  lemma MovingResults(hash: Hash, w: World, m: nat, n: nat, gid: int)
    requires Sound(w) && m in w.metas && n in w.metas && w.metas[n].gid == Some(gid) && GidOf(hash, w.metas, m) == gid
    ensures
      var w' := w.(results := ResultsMoved(w.results, m, n, gid));
      Sound(w') && Kept(hash, w, w')
  {
    hide Consistent, GidsUnique, LinksResolve, MetasKept, SourcesKept, Places;
    KeptByNothing(hash, w);
    var w' := w.(results := ResultsMoved(w.results, m, n, gid));
    assert LinksResolve(w') && MetasKept(hash, w, w') && SourcesKept(hash, w, w') && Places(hash, w') == Places(hash, w) by {
      OnlyResultsDiffer(hash, w, w');
    }
  }

  /** If the links stay and their metas keep their gids, everything stays in its place. */
  lemma PlacesStay(hash: Hash, w: World, w': World)
    requires Sound(w) && w'.links == w.links
    requires forall m :: m in w.metas && (m in w'.metas || IsLinked(w, m)) ==>
               m in w'.metas && GidOf(hash, w'.metas, m) == GidOf(hash, w.metas, m)
    ensures LinksResolve(w') && SourcesKept(hash, w, w') && Places(hash, w') == Places(hash, w)
  {
    hide GidOf, GidsUnique, Unique, MergedIntoExists, CountIn;
    forall id | id in w.links.rows
      ensures Place(hash, w', id) == Place(hash, w, id) && Place(hash, w, id).Some?
    {
      assert IsLinked(w, w.links.rows[id].gid);
    }
    forall i | 0 <= i < |w.links.sources|
      ensures SamePlace(hash, w, w', w.links.sources[i].link, w'.links.sources[i].link)
    {
    }
  }

  ghost predicate IsLinked(w: World, m: int) {
    exists id :: id in w.links.rows && w.links.rows[id].gid == m
  }

  lemma OnlyResultsDiffer(hash: Hash, w: World, w': World)
    requires Sound(w) && w' == w.(results := w'.results)
    ensures LinksResolve(w') && MetasKept(hash, w, w') && SourcesKept(hash, w, w') && Places(hash, w') == Places(hash, w)
  {
    hide Consistent, Places, SourcesKept;
    PlacesStay(hash, w, w');
  }

  /** The link of a track to the one meta is folded into its link to the other. */
  function TwinFolded(t: Tables, a: nat, b: nat): Tables
    requires a in t.rows && b in t.rows
  {
    t.(rows := t.rows[b := t.rows[b].(count := t.rows[b].count + t.rows[a].count)] - {a},
       sources := RepointedSources(t.sources, {a}, b))
  }

  ghost predicate AreTwins(hash: Hash, w: World, a: nat, b: nat) {
    && a in w.links.rows && b in w.links.rows && a != b
    && Place(hash, w, a).Some? && Place(hash, w, a) == Place(hash, w, b)
  }

  lemma FoldingTwins(hash: Hash, w: World, a: nat, b: nat)
    requires Sound(w) && AreTwins(hash, w, a, b) && Unmerged(w.links.rows) && w.links.changes == []
    ensures
      var w' := w.(links := TwinFolded(w.links, a, b));
      Sound(w') && Kept(hash, w, w')
  {
    hide GidsUnique, Consistent, Places, Place;
    var w' := w.(links := TwinFolded(w.links, a, b));
    TwinsStayConsistent(w.links, a, b);
    TwinsKeepPlaces(hash, w, a, b);
  }

  lemma TwinsStayConsistent(t: Tables, a: nat, b: nat)
    requires Consistent(t) && a in t.rows && b in t.rows && a != b && Unmerged(t.rows) && t.changes == []
    ensures Consistent(TwinFolded(t, a, b))
  {
    var t' := TwinFolded(t, a, b);
    forall id | id in t'.rows
      ensures t'.rows[id].count == CountIn(t'.sources, {id})
    {
      var ids := if id == b then {a} + {b} else {id};
      CountMoved(t.sources, t'.sources, ids, id);
      CountDisjoint(t.sources, {a}, {b});
    }
  }

  lemma TwinsKeepPlaces(hash: Hash, w: World, a: nat, b: nat)
    requires Sound(w) && AreTwins(hash, w, a, b)
    ensures
      var w' := w.(links := TwinFolded(w.links, a, b));
      && SourcesKept(hash, w, w') && Places(hash, w') == Places(hash, w)
      && MetasKept(hash, w, w') && ResultsKept(hash, w, w') && LinksResolve(w')
  {
    hide GidsUnique, Unique, MergedIntoExists, GidOf;
    var w' := w.(links := TwinFolded(w.links, a, b));
    forall id | id in w'.links.rows
      ensures id in w.links.rows && Place(hash, w', id) == Place(hash, w, id)
    {
    }
    forall i | 0 <= i < |w.links.sources|
      ensures SamePlace(hash, w, w', w.links.sources[i].link, w'.links.sources[i].link)
    {
    }
    forall p | p in Places(hash, w)
      ensures p in Places(hash, w')
    {
      var id :| id in w.links.rows && Place(hash, w, id) == p;
      assert Place(hash, w', if id == a then b else id) == p;
    }
  }

  /** `update track_meta set meta_id = n where meta_id = m` */
  function LinksMoved(rows: Rows, m: nat, n: nat): Rows {
    map id | id in rows :: if rows[id].gid == m then rows[id].(gid := n) else rows[id]
  }

  /** No track is linked to both. */
  ghost predicate NoTwins(rows: Rows, m: nat, n: nat) {
    forall i, j :: i in rows && j in rows && rows[i].gid == m && rows[j].gid == n ==> rows[i].track != rows[j].track
  }

  lemma MovingLinks(hash: Hash, w: World, m: nat, n: nat)
    requires Sound(w) && m in w.metas && n in w.metas && GidOf(hash, w.metas, m) == GidOf(hash, w.metas, n)
    requires NoTwins(w.links.rows, m, n)
    ensures
      var w' := w.(links := w.links.(rows := LinksMoved(w.links.rows, m, n)));
      Sound(w') && Kept(hash, w, w')
  {
    hide Consistent, GidsUnique, LinksMoved, NoTwins, Place, Places;
    MovedStayConsistent(w.links, m, n);
    MovedKeepPlaces(hash, w, m, n);
  }

  lemma MovedStayConsistent(t: Tables, m: nat, n: nat)
    requires Consistent(t) && NoTwins(t.rows, m, n)
    ensures Consistent(t.(rows := LinksMoved(t.rows, m, n)))
  {
    hide CountIn;
  }

  lemma MovedKeepPlaces(hash: Hash, w: World, m: nat, n: nat)
    requires Sound(w) && m in w.metas && n in w.metas && GidOf(hash, w.metas, m) == GidOf(hash, w.metas, n)
    ensures
      var w' := w.(links := w.links.(rows := LinksMoved(w.links.rows, m, n)));
      && SourcesKept(hash, w, w') && Places(hash, w') == Places(hash, w)
      && MetasKept(hash, w, w') && ResultsKept(hash, w, w') && LinksResolve(w')
  {
    hide GidsUnique, Unique, MergedIntoExists, GidOf;
    var w' := w.(links := w.links.(rows := LinksMoved(w.links.rows, m, n)));
    forall id
      ensures id in w'.links.rows <==> id in w.links.rows
      ensures Place(hash, w', id) == Place(hash, w, id)
    {
    }
    forall i | 0 <= i < |w.links.sources|
      ensures SamePlace(hash, w, w', w.links.sources[i].link, w'.links.sources[i].link)
    {
    }
  }

  /** The meta goes, and the history remembers its gid. */
  function MetaDropped(w: World, m: nat, gid: int): World {
    w.(metas := w.metas - {m}, history := w.history[m := gid])
  }

  lemma DroppingMeta(hash: Hash, w: World, m: nat, n: nat, gid: int)
    requires Sound(w) && m in w.metas && n in w.metas && w.metas[m].gid.None? && w.metas[n].gid == Some(gid)
    requires GidOf(hash, w.metas, m) == gid
    requires forall id :: id in w.links.rows ==> w.links.rows[id].gid != m
    requires forall s :: s in w.results ==> w.results[s].metaId != Some(m)
    ensures Sound(MetaDropped(w, m, gid)) && Kept(hash, w, MetaDropped(w, m, gid))
  {
    hide Consistent, Labelled, SourcesKept, Places, GidOf, MetasKept, ResultsKept;
    var w' := MetaDropped(w, m, gid);
    GidsStay(hash, w.metas, m);
    PlacesStay(hash, w, w');
    DroppedMetaIsKept(hash, w, m, n, gid);
    UnusedByResults(hash, w, m, gid);
    LabelsSurvive(w, w');
  }

  lemma DroppedMetaIsKept(hash: Hash, w: World, m: nat, n: nat, gid: int)
    requires m in w.metas && n in w.metas && w.metas[m].gid.None? && w.metas[n].gid == Some(gid)
    requires GidOf(hash, w.metas, m) == gid && w.history.Keys !! w.metas.Keys
    ensures MetasKept(hash, w, MetaDropped(w, m, gid))
  {
    assert MetaDropped(w, m, gid).metas[n].gid == Some(gid);
  }

  lemma UnusedByResults(hash: Hash, w: World, m: nat, gid: int)
    requires ResultsResolve(w) && forall s :: s in w.results ==> w.results[s].metaId != Some(m)
    ensures ResultsResolve(MetaDropped(w, m, gid)) && ResultsKept(hash, w, MetaDropped(w, m, gid))
  {
  }

  lemma GidsStay(hash: Hash, metas: Metas, m: nat)
    ensures forall k :: k in metas && k != m ==> k in metas - {m} && GidOf(hash, metas - {m}, k) == GidOf(hash, metas, k)
  {
  }

  lemma LabelsSurvive(w: World, w': World)
    requires w'.results == w.results && forall m :: m in w'.metas ==> m in w.metas && w'.metas[m] == w.metas[m]
    ensures Labelled(w) ==> Labelled(w')
  {
  }

  /** The meta gets its gid, and so do its results. */
  function MetaFilled(w: World, m: nat, gid: int): World
    requires m in w.metas
  {
    w.(metas := w.metas[m := w.metas[m].(gid := Some(gid))],
       results := map s | s in w.results ::
         if w.results[s].metaId == Some(m) then w.results[s].(metaGid := Some(gid)) else w.results[s])
  }

  lemma FillingMeta(hash: Hash, w: World, m: nat, gid: int)
    requires Sound(w) && m in w.metas && w.metas[m].gid.None? && GidOf(hash, w.metas, m) == gid && !Taken(w.metas, gid)
    ensures Sound(MetaFilled(w, m, gid)) && Kept(hash, w, MetaFilled(w, m, gid))
  {
    hide Consistent, SourcesKept, Places, GidOf, MetasKept, ResultsKept, Labelled, Taken;
    FilledMetaIsKept(hash, w, m, gid);
    PlacesStay(hash, w, MetaFilled(w, m, gid));
    FilledResults(hash, w, m, gid);
  }

  lemma FilledMetaIsKept(hash: Hash, w: World, m: nat, gid: int)
    requires m in w.metas && w.metas[m].gid.None? && GidOf(hash, w.metas, m) == gid && !Taken(w.metas, gid)
    ensures MetasKept(hash, w, MetaFilled(w, m, gid))
    ensures GidsUnique(w.metas) ==> GidsUnique(MetaFilled(w, m, gid).metas)
    ensures forall k :: k in w.metas ==> GidOf(hash, MetaFilled(w, m, gid).metas, k) == GidOf(hash, w.metas, k)
  {
  }

  lemma FilledResults(hash: Hash, w: World, m: nat, gid: int)
    requires ResultsResolve(w) && m in w.metas
    requires forall k :: k in w.metas ==> GidOf(hash, MetaFilled(w, m, gid).metas, k) == GidOf(hash, w.metas, k)
    ensures ResultsResolve(MetaFilled(w, m, gid)) && ResultsKept(hash, w, MetaFilled(w, m, gid))
    ensures Labelled(w) ==> Labelled(MetaFilled(w, m, gid))
  {
    hide GidOf;
  }

  // ----- the script --------------------------------------------------------------------------

  /** The tracks that the query for duplicates finds: those with more than one link to the
      two metas. */
  function Duplicates(rows: Rows, m: nat, n: nat): set<int> {
    set i, j | i in rows && j in rows && i != j && rows[i].track == rows[j].track
               && rows[i].gid in {m, n} && rows[j].gid in {m, n} :: rows[i].track
  }

  /** How the rows have changed: some are gone, the others are where they were. */
  ghost predicate Thinned(rows0: Rows, rows: Rows) {
    forall id :: id in rows ==> id in rows0 && rows[id].track == rows0[id].track && rows[id].gid == rows0[id].gid
  }

  /** Twins are left on the tracks still to do and on no others. */
  ghost predicate TwinsOnlyOn(rows: Rows, m: nat, n: nat, tracks: set<int>) {
    forall i, j :: i in rows && j in rows && rows[i].gid == m && rows[j].gid == n && rows[i].track == rows[j].track ==>
      rows[i].track in tracks
  }

  lemma OneTrackLess(rows: Rows, rows': Rows, m: nat, n: nat, tracks: set<int>, track: int)
    requires TwinsOnlyOn(rows, m, n, tracks) && Thinned(rows, rows')
    requires NoRowAt(rows', track, m) || NoRowAt(rows', track, n)
    ensures TwinsOnlyOn(rows', m, n, tracks - {track})
  {
  }

  /** Every meta up to this id has its gid. */
  ghost predicate DoneUpTo(metas: Metas, last: nat) {
    forall m :: m in metas && m <= last ==> metas[m].gid.Some?
  }

  class Backfill {
    const hash: Hash
    const links: LinkTable
    var metas: Metas
    var results: map<int, Result>
    var history: map<nat, int>
    // meta_gid_backfill_status
    var lastMetaId: nat

    constructor (hash: Hash, links: LinkTable)
      ensures this.hash == hash && this.links == links
      ensures metas == map[] && results == map[] && history == map[] && lastMetaId == 0
    {
      this.hash, this.links := hash, links;
      metas, results, history, lastMetaId := map[], map[], map[], 0;
    }

    ghost function Snapshot(): World
      reads this, links
    {
      World(links.Snapshot(), metas, results, history)
    }

    ghost predicate Valid()
      reads this, links
    {
      !links.isMbid && links.Valid() && Sound(Snapshot())
    }

    /** One round of the loop over the tracks with duplicates: the link to the meta that goes
        hands its count and its sources to the link to the meta that stays. */
    method FoldTrack(track: int, m: nat, n: nat) returns (ghost goes: nat, ghost stays: nat)
      requires Valid() && m in metas && n in metas && m != n && GidOf(hash, metas, m) == GidOf(hash, metas, n)
      modifies links`rows, links`sources
      ensures Valid() && Kept(hash, old(Snapshot()), Snapshot()) && Thinned(old(links.rows), links.rows)
      ensures NoRowAt(links.rows, track, m) || NoRowAt(links.rows, track, n)
      ensures if NoRowAt(old(links.rows), track, m) || NoRowAt(old(links.rows), track, n) then Snapshot() == old(Snapshot())
              else IsRowAt(old(links.rows), goes, track, m) && IsRowAt(old(links.rows), stays, track, n)
                   && links.Snapshot() == TwinFolded(old(links.Snapshot()), goes, stays)
    {
      hide Consistent, GidsUnique, LinksResolve, ResultsResolve, Kept, Labelled;
      ghost var w := Snapshot();
      goes, stays := 0, 0;
      KeptByNothing(hash, w);
      var a := links.Find(track, m);
      var b := links.Find(track, n);
      if a.None? || b.None? {
        return;
      }
      var i, j := a.value, b.value;
      goes, stays := i, j;
      TwinsAtSamePlace(hash, w, i, j, m, n);
      FoldingTwins(hash, w, i, j);
      OneTwinLeft(w.links, i, j);
      var row := links.rows[i];
      links.rows := links.rows[j := links.rows[j].(count := links.rows[j].count + row.count)];
      links.sources := RepointedSources(links.sources, {i}, j);
      links.rows := links.rows - {i};
    }

    /** The branch for a meta whose gid another meta already has. */
    method FoldMeta(m: nat, n: nat, gid: int)
      requires Valid() && m in metas && metas[m].gid.None? && n in metas && metas[n].gid == Some(gid)
      requires GidOf(hash, metas, m) == gid
      modifies this`metas, this`results, this`history, links`rows, links`sources
      ensures Valid() && Kept(hash, old(Snapshot()), Snapshot())
      ensures metas == old(metas) - {m}
    {
      hide Sound, Kept, Duplicates, TwinsOnlyOn, Thinned, NoRowAt, MetaDropped;
      ghost var w0 := Snapshot();
      MovingResults(hash, w0, m, n, gid);
      results := ResultsMoved(results, m, n, gid);
      ghost var w1 := Snapshot();
      var todo := Duplicates(links.rows, m, n);
      TwinsAreDuplicates(links.rows, m, n);
      while todo != {}
        invariant Valid() && Kept(hash, w0, Snapshot())
        invariant results == w1.results && metas == w0.metas && history == w0.history
        invariant TwinsOnlyOn(links.rows, m, n, todo)
        decreases todo
      {
        ghost var _ := SomeElement(todo);
        var track :| track in todo;
        ghost var w := Snapshot();
        ghost var _, _ := FoldTrack(track, m, n);
        KeptTransitively(hash, w0, w, Snapshot());
        OneTrackLess(w.links.rows, links.rows, m, n, todo, track);
        todo := todo - {track};
      }
      MoveLinks(m, n, w0);
      DropMeta(m, n, gid, w0);
    }

    method MoveLinks(m: nat, n: nat, ghost w0: World)
      requires Valid() && m in metas && n in metas && m != n && GidOf(hash, metas, m) == GidOf(hash, metas, n)
      requires TwinsOnlyOn(links.rows, m, n, {}) && Kept(hash, w0, Snapshot())
      modifies links`rows, links`sources
      ensures Valid() && Kept(hash, w0, Snapshot())
      ensures forall id :: id in links.rows ==> links.rows[id].gid != m
    {
      hide Kept, Consistent, GidsUnique, LinksResolve, ResultsResolve;
      ghost var w := Snapshot();
      MovingLinks(hash, w, m, n);
      links.rows := LinksMoved(links.rows, m, n);
      KeptTransitively(hash, w0, w, Snapshot());
    }

    method DropMeta(m: nat, n: nat, gid: int, ghost w0: World)
      requires Valid() && m in metas && metas[m].gid.None? && n in metas && metas[n].gid == Some(gid)
      requires GidOf(hash, metas, m) == gid
      requires forall id :: id in links.rows ==> links.rows[id].gid != m
      requires forall s :: s in results ==> results[s].metaId != Some(m)
      requires Kept(hash, w0, Snapshot())
      modifies this`metas, this`history
      ensures Valid() && Kept(hash, w0, Snapshot()) && metas == old(metas) - {m}
    {
      hide Kept, Sound;
      ghost var w := Snapshot();
      DroppingMeta(hash, w, m, n, gid);
      history := history[m := gid];
      metas := metas - {m};
      KeptTransitively(hash, w0, w, Snapshot());
    }

    /** The other branch: nothing has the gid yet. */
    method FillMeta(m: nat, gid: int)
      requires Valid() && m in metas && metas[m].gid.None? && !Taken(metas, gid) && GidOf(hash, metas, m) == gid
      modifies this`metas, this`results
      ensures Valid() && Kept(hash, old(Snapshot()), Snapshot())
      ensures metas == old(metas)[m := old(metas)[m].(gid := Some(gid))]
    {
      hide Kept, Sound, Taken;
      FillingMeta(hash, Snapshot(), m, gid);
      metas := metas[m := metas[m].(gid := Some(gid))];
      results := map s | s in results ::
        if results[s].metaId == Some(m) then results[s].(metaGid := Some(gid)) else results[s];
    }

    /** The body of the loop of `backfill_meta_gid`. */
    method BackfillMeta(m: nat)
      requires Valid() && m in metas
      modifies this`metas, this`results, this`history, links`rows, links`sources
      ensures Valid() && Kept(hash, old(Snapshot()), Snapshot())
      ensures metas == MetaDone(hash, old(metas), m)
    {
      hide Kept, Sound;
      if metas[m].gid.Some? {
        KeptByNothing(hash, Snapshot());
        return;
      }
      var gid := hash(metas[m].content);
      if n :| n in metas && metas[n].gid == Some(gid) {
        FoldMeta(m, n, gid);
      } else {
        FillMeta(m, gid);
      }
    }

    /** `backfill_meta_gid`: the metas from the last one on, at most so many of them. */
    method BackfillBatch(last: nat, limit: nat) returns (newLast: nat)
      requires Valid()
      modifies this`metas, this`results, this`history, links`rows, links`sources
      ensures Valid() && Kept(hash, old(Snapshot()), Snapshot())
      ensures metas == BatchMetas(hash, old(metas), BatchIds(old(metas), last, limit))
      ensures newLast == Furthest(last, BatchIds(old(metas), last, limit))
    {
      hide Kept, Sound, IsPage, BatchIds, Furthest, DoneUpTo, MetaDone;
      ghost var w0 := Snapshot();
      var batch := BatchIds(metas, last, limit);
      newLast := last;
      KeptByNothing(hash, w0);
      BatchStarts(metas, last, limit);
      for i := 0 to |batch|
        invariant Valid() && Kept(hash, w0, Snapshot())
        invariant metas == BatchMetas(hash, w0.metas, batch[..i]) && newLast == Furthest(last, batch[..i])
      {
        var m := batch[i];
        BatchGoesOn(hash, w0.metas, batch, last, limit, i);
        if m > newLast {
          newLast := m;
        }
        ghost var w := Snapshot();
        BackfillMeta(m);
        KeptTransitively(hash, w0, w, Snapshot());
        assert batch[..i + 1][..i] == batch[..i];
      }
      assert batch[..|batch|] == batch;
    }

    /** `run_backfill_meta_gid`: one transaction a batch, until a batch does not get further;
        that last transaction is not committed. It ends for every limit; `CompletesIff` says
        for which ones every meta then has its gid. */
    method Run(limit: nat)
      requires Valid() && DoneUpTo(metas, lastMetaId)
      modifies this, links`rows, links`sources
      ensures Valid() && Kept(hash, old(Snapshot()), Snapshot()) && DoneUpTo(metas, lastMetaId)
      ensures 0 !in old(metas) && metas == RunMetas(hash, old(metas), old(lastMetaId), limit)
      ensures Furthest(lastMetaId, BatchIds(metas, lastMetaId, limit)) == lastMetaId
      ensures lastMetaId == old(lastMetaId) || lastMetaId in old(metas)
      ensures limit >= 2 ==> AllDone(metas)
    {
      hide Kept, Sound, BatchDone, IsPage, BatchIds, Furthest, DoneUpTo, Above, AllDone, BatchMetas, Consistent, Unmerged, Page;
      ghost var w0 := Snapshot();
      IdsArePositive(w0);
      KeptByNothing(hash, w0);
      while true
        invariant Valid() && Kept(hash, w0, Snapshot()) && DoneUpTo(metas, lastMetaId)
        invariant lastMetaId == old(lastMetaId) || lastMetaId in w0.metas
        invariant forall m :: m in metas ==> m in w0.metas
        invariant RunMetas(hash, w0.metas, old(lastMetaId), limit) == RunMetas(hash, metas, lastMetaId, limit)
        decreases |Above(metas, lastMetaId)|
      {
        ghost var w := Snapshot();
        IdsArePositive(w);
        var metas0, results0, history0, rows0, sources0 := metas, results, history, links.rows, links.sources;
        var newLast := BackfillBatch(lastMetaId, limit);
        if newLast == lastMetaId {
          metas, results, history, links.rows, links.sources := metas0, results0, history0, rows0, sources0;
          if limit >= 2 {
            NothingIsLeft(metas, lastMetaId, limit);
          }
          break;
        }
        KeptTransitively(hash, w0, w, Snapshot());
        BatchMetasAreDone(hash, w.metas, lastMetaId, limit);
        BatchGetsFurther(w.metas, metas, lastMetaId, limit);
        lastMetaId := newLast;
      }
    }
  }

  lemma TwinsAtSamePlace(hash: Hash, w: World, i: nat, j: nat, m: nat, n: nat)
    requires i in w.links.rows && j in w.links.rows && w.links.rows[i].track == w.links.rows[j].track
    requires w.links.rows[i].gid == m && w.links.rows[j].gid == n && m != n
    requires m in w.metas && n in w.metas && GidOf(hash, w.metas, m) == GidOf(hash, w.metas, n)
    ensures AreTwins(hash, w, i, j)
  {
  }

  lemma OneTwinLeft(t: Tables, i: nat, j: nat)
    requires Consistent(t) && i in t.rows && j in t.rows && i != j
    ensures NoRowAt(TwinFolded(t, i, j).rows, t.rows[i].track, t.rows[i].gid)
    ensures Thinned(t.rows, TwinFolded(t, i, j).rows)
  {
  }

  lemma TwinsAreDuplicates(rows: Rows, m: nat, n: nat)
    requires m != n
    ensures TwinsOnlyOn(rows, m, n, Duplicates(rows, m, n))
  {
  }

  // ----- batches ---------------------------------------------------------------------------

  /** `where id >= last order by id limit limit`; ids are positive. */
  function BatchIds(metas: Metas, last: nat, limit: nat): seq<nat> {
    Page(metas.Keys, if last == 0 then 0 else last - 1, limit)
  }

  function Furthest(last: nat, batch: seq<nat>): nat {
    if batch == [] then last
    else if batch[|batch| - 1] > last then batch[|batch| - 1]
    else last
  }

  // ----- the metas alone -------------------------------------------------------------------

  /** One meta gets its gid, or goes if another has it. */
  ghost function MetaDone(hash: Hash, metas: Metas, m: nat): Metas {
    if m !in metas || metas[m].gid.Some? then metas
    else
      var gid := hash(metas[m].content);
      if Taken(metas, gid) then metas - {m} else metas[m := metas[m].(gid := Some(gid))]
  }

  ghost function BatchMetas(hash: Hash, metas: Metas, batch: seq<nat>): Metas {
    if batch == [] then metas
    else MetaDone(hash, BatchMetas(hash, metas, batch[..|batch| - 1]), batch[|batch| - 1])
  }

  /** All batches until one does not get further. */
  ghost function RunMetas(hash: Hash, metas: Metas, last: nat, limit: nat): Metas
    requires 0 !in metas
    decreases |Above(metas, last)|
  {
    var batch := BatchIds(metas, last, limit);
    if Furthest(last, batch) == last then metas
    else
      FewerAreAbove(hash, metas, last, limit);
      RunMetas(hash, BatchMetas(hash, metas, batch), Furthest(last, batch), limit)
  }

  lemma FewerAreAbove(hash: Hash, metas: Metas, last: nat, limit: nat)
    requires 0 !in metas && Furthest(last, BatchIds(metas, last, limit)) != last
    ensures
      var batch := BatchIds(metas, last, limit);
      && 0 !in BatchMetas(hash, metas, batch)
      && |Above(BatchMetas(hash, metas, batch), Furthest(last, batch))| < |Above(metas, last)|
  {
    hide BatchIds;
    BatchMetasAreDone(hash, metas, last, limit);
    BatchIsPage(metas, last, limit);
    var batch := BatchIds(metas, last, limit);
    var metas', newLast := BatchMetas(hash, metas, batch), Furthest(last, batch);
    assert newLast in Above(metas, last) && newLast !in Above(metas', newLast);
    SubsetIsNoLarger(Above(metas', newLast), Above(metas, last));
  }

  ghost predicate AllDone(metas: Metas) {
    forall m :: m in metas ==> metas[m].gid.Some?
  }

  /** From every table, whatever the hash and wherever it left off, the run ends with every
      meta having its gid. */
  ghost predicate Completes(limit: nat) {
    forall hash: Hash, metas: Metas, last: nat :: CompletesFrom(hash, metas, last, limit)
  }

  ghost predicate CompletesFrom(hash: Hash, metas: Metas, last: nat, limit: nat) {
    0 !in metas && DoneUpTo(metas, last) ==> AllDone(RunMetas(hash, metas, last, limit))
  }

  /** That is so if and only if a batch has room for two. */
  lemma CompletesIff(limit: nat)
    ensures Completes(limit) <==> limit >= 2
  {
    hide AllDone, RunMetas, DoneUpTo;
    if limit >= 2 {
      forall hash: Hash, metas: Metas, last: nat
        ensures CompletesFrom(hash, metas, last, limit)
      {
        if 0 !in metas && DoneUpTo(metas, last) {
          RunCompletes(hash, metas, last, limit);
        }
      }
    } else {
      TwoAreUndone();
      StallLeavesAMeta(_ => 0, limit);
      assert !CompletesFrom(_ => 0, Two(), 0, limit);
    }
  }

  lemma {:induction false} RunCompletes(hash: Hash, metas: Metas, last: nat, limit: nat)
    requires 0 !in metas && DoneUpTo(metas, last) && limit >= 2
    ensures AllDone(RunMetas(hash, metas, last, limit))
    decreases |Above(metas, last)|
  {
    hide BatchIds, Furthest, BatchDone, BatchMetas, DoneUpTo, Above;
    var batch := BatchIds(metas, last, limit);
    if Furthest(last, batch) == last {
      NothingIsLeft(metas, last, limit);
    } else {
      FewerAreAbove(hash, metas, last, limit);
      BatchMetasAreDone(hash, metas, last, limit);
      BatchGetsFurther(metas, BatchMetas(hash, metas, batch), last, limit);
      RunCompletes(hash, BatchMetas(hash, metas, batch), Furthest(last, batch), limit);
    }
  }

  /** The metas of the batch that are still there have their gid; the others are as they were. */
  ghost predicate BatchDone(metas0: Metas, metas: Metas, batch: seq<nat>) {
    && (forall m :: m in batch && m in metas ==> metas[m].gid.Some?)
    && (forall m :: m in metas0 && m !in batch ==> m in metas && metas[m] == metas0[m])
    && (forall m :: m in metas ==> m in metas0)
  }

  ghost function Above(metas: Metas, last: nat): set<nat> {
    set m | m in metas && last < m
  }

  lemma IdsArePositive(w: World)
    requires Sound(w)
    ensures 0 !in w.metas
  {
  }

  lemma BatchStarts(metas: Metas, last: nat, limit: nat)
    ensures Furthest(last, BatchIds(metas, last, limit)[..0]) == last
  {
  }

  lemma BatchGoesOn(hash: Hash, metas: Metas, batch: seq<nat>, last: nat, limit: nat, i: nat)
    requires batch == BatchIds(metas, last, limit) && i < |batch|
    ensures batch[i] in BatchMetas(hash, metas, batch[..i])
    ensures Furthest(last, batch[..i + 1]) == if batch[i] > Furthest(last, batch[..i]) then batch[i] else Furthest(last, batch[..i])
  {
    assert batch[i] in batch && batch[i] !in batch[..i];
    DoneSoFar(hash, metas, batch[..i]);
  }

  lemma {:induction false} DoneSoFar(hash: Hash, metas: Metas, batch: seq<nat>)
    ensures BatchDone(metas, BatchMetas(hash, metas, batch), batch)
  {
    if batch != [] {
      var n := |batch| - 1;
      DoneSoFar(hash, metas, batch[..n]);
      assert batch == batch[..n] + [batch[n]];
      assert forall m :: m in batch <==> m in batch[..n] || m == batch[n];
    }
  }

  lemma BatchMetasAreDone(hash: Hash, metas: Metas, last: nat, limit: nat)
    ensures BatchDone(metas, BatchMetas(hash, metas, BatchIds(metas, last, limit)), BatchIds(metas, last, limit))
  {
    DoneSoFar(hash, metas, BatchIds(metas, last, limit));
  }

  lemma BatchIsPage(metas: Metas, last: nat, limit: nat)
    requires 0 !in metas
    ensures
      var batch := BatchIds(metas, last, limit);
      && Increasing(batch) && |batch| <= limit
      && (forall m :: m in batch ==> m in metas && last <= m)
      && (forall m :: m in metas && last <= m && m !in batch ==> |batch| == limit && forall k :: k in batch ==> k < m)
  {
  }

  /** With room for two, a batch that does not get further has seen everything. */
  lemma NothingIsLeft(metas: Metas, last: nat, limit: nat)
    requires 0 !in metas && limit >= 2 && DoneUpTo(metas, last)
    requires Furthest(last, BatchIds(metas, last, limit)) == last
    ensures AllDone(metas)
  {
    hide BatchIds;
    BatchIsPage(metas, last, limit);
    var batch := BatchIds(metas, last, limit);
    FurthestBounds(last, batch);
    NotAllAtOnePlace(batch, last);
    assert forall m :: m in metas ==> m <= last;
  }

  lemma NotAllAtOnePlace(batch: seq<nat>, last: nat)
    requires Increasing(batch)
    ensures |batch| >= 2 ==> exists m :: m in batch && m != last
  {
    if |batch| >= 2 {
      assert batch[0] in batch && batch[1] in batch && batch[0] < batch[1];
    }
  }

  lemma FurthestBounds(last: nat, batch: seq<nat>)
    requires Increasing(batch)
    ensures forall m :: m in batch ==> m <= Furthest(last, batch)
  {
  }

  lemma BatchGetsFurther(metas0: Metas, metas: Metas, last: nat, limit: nat)
    requires 0 !in metas0 && DoneUpTo(metas0, last) && BatchDone(metas0, metas, BatchIds(metas0, last, limit))
    requires Furthest(last, BatchIds(metas0, last, limit)) != last
    ensures DoneUpTo(metas, Furthest(last, BatchIds(metas0, last, limit)))
    ensures |Above(metas, Furthest(last, BatchIds(metas0, last, limit)))| < |Above(metas0, last)|
    ensures Furthest(last, BatchIds(metas0, last, limit)) in metas0
    ensures forall m :: m in metas ==> m in metas0
  {
    hide BatchIds;
    BatchIsPage(metas0, last, limit);
    var batch := BatchIds(metas0, last, limit);
    var newLast := Furthest(last, batch);
    assert newLast in batch && newLast in Above(metas0, last);
    assert newLast !in Above(metas, newLast) && Above(metas, newLast) <= Above(metas0, last);
    SubsetIsNoLarger(Above(metas, newLast), Above(metas0, last));
  }

  /** With room for one only, the script stops at the last meta of the batch before it, as
      long as that is still there. */
  lemma LimitOfOneStalls(metas: Metas, last: nat)
    requires 0 !in metas
    ensures Furthest(last, BatchIds(metas, last, 1)) == last <==> last in metas || Above(metas, last) == {}
  {
    hide BatchIds;
    BatchIsPage(metas, last, 1);
    var batch := BatchIds(metas, last, 1);
    assert forall k :: k in batch ==> k == batch[0];
    assert batch != [] ==> batch[0] in batch;
    assert last in metas ==> last in batch;
    if last !in metas {
      assert forall k :: k in batch ==> k in Above(metas, last);
      assert forall m :: m in Above(metas, last) ==> m in batch || |batch| == 1;
    }
  }

  /** Two metas without a gid and with different contents. */
  function Two(): Metas {
    map[1 := Meta("a", None), 2 := Meta("b", None)]
  }

  lemma TwoAreUndone()
    ensures 0 !in Two() && DoneUpTo(Two(), 0)
    ensures Sound(World(Tables(map[], [], []), Two(), map[], map[]))
  {
  }

  lemma FirstOf(metas: Metas, last: nat, m: nat)
    requires m in metas && 0 < m && (last == 0 || last <= m)
    requires forall k :: k in metas ==> m <= k
    ensures BatchIds(metas, last, 0) == [] && BatchIds(metas, last, 1) == [m]
  {
    var after: nat := if last == 0 then 0 else last - 1;
    assert IsPage(metas.Keys, after, 1, [m]);
    PageIsUnique(metas.Keys, after, 1, Page(metas.Keys, after, 1), [m]);
  }

  /** With room for one the first batch fills the first meta, the second batch gets no further,
      and the second meta never has a gid; with room for none neither has. */
  lemma StallLeavesAMeta(hash: Hash, limit: nat)
    requires limit < 2
    ensures 0 !in Two() && 2 in RunMetas(hash, Two(), 0, limit) && RunMetas(hash, Two(), 0, limit)[2].gid.None?
    ensures !AllDone(RunMetas(hash, Two(), 0, limit))
  {
    hide BatchIds;
    FirstOf(Two(), 0, 1);
    if limit == 1 {
      var metas := MetaDone(hash, Two(), 1);
      assert BatchMetas(hash, Two(), [1][..0]) == Two();
      assert BatchMetas(hash, Two(), [1]) == metas;
      FirstOf(metas, 1, 1);
      assert RunMetas(hash, metas, 1, 1) == metas;
    }
  }

  /** The script itself on those two. */
  method StallingRun(hash: Hash, limit: nat) returns (backfill: Backfill)
    requires limit < 2
    ensures fresh(backfill) && backfill.Valid() && 2 in backfill.metas && backfill.metas[2].gid.None?
  {
    hide RunMetas, DoneUpTo, Sound, Kept, AllDone, Furthest, BatchIds;
    var links := new LinkTable(false);
    backfill := new Backfill(hash, links);
    backfill.metas := Two();
    TwoAreUndone();
    StallLeavesAMeta(hash, limit);
    backfill.Run(limit);
  }

  /** What the finished backfill amounts to: metas without a gid got that of their content,
      each gid belongs to one meta, and each result carries the gid its meta had or was to get. */
  lemma BackfillIsComplete(hash: Hash, w: World, w': World, s: int)
    requires Sound(w) && Sound(w') && Kept(hash, w, w') && Labelled(w)
    requires forall m :: m in w'.metas ==> w'.metas[m].gid.Some?
    ensures forall m :: m in w'.metas ==> m in w.metas && w'.metas[m].gid == Some(GidOf(hash, w.metas, m))
    ensures forall m :: m in w.metas ==>
              exists n :: n in w'.metas && w'.metas[n].gid == Some(GidOf(hash, w.metas, m))
    ensures s in w.results && w.results[s].metaId.Some? ==>
              && w.results[s].metaId.value in w.metas
              && s in w'.results && w'.results[s].metaGid == Some(GidOf(hash, w.metas, w.results[s].metaId.value))
              && w'.results[s].metaId.Some? && w'.results[s].metaId.value in w'.metas
              && w'.metas[w'.results[s].metaId.value].gid == w'.results[s].metaGid
  {
    hide SourcesKept, Places, Consistent;
    forall m | m in w.metas
      ensures exists n :: n in w'.metas && w'.metas[n].gid == Some(GidOf(hash, w.metas, m))
    {
      if m in w'.metas {
        assert w'.metas[m].gid == Some(GidOf(hash, w.metas, m));
      }
    }
  }
}
