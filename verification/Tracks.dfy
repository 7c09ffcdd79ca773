/** The tracks, the fingerprints on them, and the four tables that link them to identifiers,
    as acoustid/data/track.py changes them: each method is one transaction. */
module TrackStores {
  import opened Wrappers
  import opened Links
  import opened LinkTables
  import opened Redirects

  class TrackStore {
    const mbids: LinkTable
    const puids: LinkTable
    const metas: LinkTable
    const foreignIds: LinkTable
    var tracks: Tracks
    var fingerprints: Fingerprints
    var nextId: nat

    constructor ()
      ensures Valid() && fresh(Repr())
      ensures tracks == map[] && fingerprints == map[] && Settled(tracks, fingerprints)
      ensures mbids.Snapshot() == puids.Snapshot() == metas.Snapshot() == foreignIds.Snapshot() == Tables(map[], [], [])
    {
      hide LinkTable.Valid;
      mbids := new LinkTable(true);
      puids := new LinkTable(false);
      metas := new LinkTable(false);
      foreignIds := new LinkTable(false);
      tracks, fingerprints, nextId := map[], map[], 1;
    }

    ghost function Repr(): set<object>
      reads this
    {
      {mbids, puids, metas, foreignIds}
    }

    ghost predicate Apart() {
      && mbids != puids && mbids != metas && mbids != foreignIds
      && puids != metas && puids != foreignIds && metas != foreignIds
      && mbids.isMbid && !puids.isMbid && !metas.isMbid && !foreignIds.isMbid
      && mbids.submissionOptional && !puids.submissionOptional && !metas.submissionOptional && !foreignIds.submissionOptional
    }

    /** The indexes and foreign keys of the schema, and counts that match the sources. */
    ghost predicate Valid()
      reads this, Repr()
    {
      && Apart()
      && mbids.Valid() && puids.Valid() && metas.Valid() && foreignIds.Valid()
      && OnTracks(tracks, mbids.rows) && OnTracks(tracks, puids.rows)
      && OnTracks(tracks, metas.rows) && OnTracks(tracks, foreignIds.rows)
      && RedirectsExist(tracks) && GidsUnique(tracks)
      && (forall f :: f in fingerprints ==> fingerprints[f] in tracks)
      && (forall t :: t in tracks ==> t < nextId)
    }

    /** `insert_track`. A gid that is taken is refused. */
    method InsertTrack(gid: int) returns (ok: bool, id: nat)
      requires Valid()
      modifies this
      ensures Valid() && fingerprints == old(fingerprints)
      ensures ok <==> forall t :: t in old(tracks) ==> old(tracks)[t].gid != gid
      ensures if ok then id !in old(tracks) && tracks == old(tracks)[id := Track(gid, None)] else tracks == old(tracks)
    {
      hide LinkTable.Valid, RedirectsExist;
      id := nextId;
      ok := forall t :: t in tracks ==> tracks[t].gid != gid;
      if ok {
        InsertKeepsRedirects(tracks, id, gid);
        tracks := tracks[id := Track(gid, None)];
        nextId := nextId + 1;
      }
    }

    /** `resolve_track_gid`: one hop, and no more. */
    method ResolveTrackGid(gid: int) returns (resolved: Option<int>)
      requires Valid()
      ensures forall t :: t in tracks && tracks[t].gid == gid ==> resolved == Resolve(tracks, t)
      ensures resolved.None? <==> forall t :: t in tracks ==> tracks[t].gid != gid
    {
      hide LinkTable.Valid;
      if t :| t in tracks && tracks[t].gid == gid {
        var newId := tracks[t].newId;
        if newId.None? {
          resolved := Some(t);
        } else if newId.value in tracks {
          resolved := newId;
        } else {
          resolved := None;
        }
      } else {
        resolved := None;
      }
    }

    /** The fingerprint row that `insert_fingerprint` adds. The foreign key refuses a track
        that does not exist. */
    method AddFingerprint(id: nat, track: int) returns (ok: bool)
      requires Valid() && id !in fingerprints
      modifies this`fingerprints
      ensures Valid() && (ok <==> track in tracks)
      ensures fingerprints == if ok then old(fingerprints)[id := track] else old(fingerprints)
    {
      hide LinkTable.Valid;
      ok := track in tracks;
      if ok {
        fingerprints := fingerprints[id := track];
      }
    }

    /** `merge_tracks`. It fails, and leaves everything as it was, if the target does not
        exist and there is something to move, or if a merged MBID row would lose the row it
        was merged into. */
    method MergeTracks(target: int, sources: set<int>) returns (ok: bool)
      requires Valid()
      modifies this, Repr()
      ensures Valid()
      ensures ok <==>
        && (target in old(tracks) || !Moves(old(tracks), sources))
        && ReferencesSurvive(old(mbids.rows), sources + {target})
      ensures !ok ==> tracks == old(tracks) && fingerprints == old(fingerprints)
      ensures LinksMerged(ok, old(mbids.Snapshot()), mbids.Snapshot(), sources + {target}, target, true)
      ensures LinksMerged(ok, old(puids.Snapshot()), puids.Snapshot(), sources + {target}, target, false)
      ensures LinksMerged(ok, old(metas.Snapshot()), metas.Snapshot(), sources + {target}, target, false)
      ensures LinksMerged(ok, old(foreignIds.Snapshot()), foreignIds.Snapshot(), sources + {target}, target, false)
      ensures ok ==> tracks == Repointed(old(tracks), sources, target)
      ensures ok ==> tracks.Keys == old(tracks).Keys && forall t :: t in tracks ==> tracks[t].gid == old(tracks)[t].gid
      ensures ok ==> forall t :: t in tracks && t !in sources && (old(tracks)[t].newId.None? || old(tracks)[t].newId.value !in sources) ==>
                tracks[t] == old(tracks)[t]
      ensures ok ==> fingerprints == Moved(old(fingerprints), sources, target)
      ensures ok ==> fingerprints.Keys == old(fingerprints).Keys
      ensures ok ==> forall f :: f in fingerprints ==>
                fingerprints[f] == if old(fingerprints)[f] in sources then target else old(fingerprints)[f]
    {
      hide TracksMerged, ReferencesSurvive, LinkTable.Valid, OnTracks, RedirectsExist, GidsUnique;
      ok := target in tracks || !Moves(tracks, sources);
      if !ok {
        return;
      }
      UnmergedSurvive(puids, sources + {target});
      UnmergedSurvive(metas, sources + {target});
      UnmergedSurvive(foreignIds, sources + {target});
      ok := mbids.MergeTracksGids(target, sources);
      if !ok {
        return;
      }
      var _ := puids.MergeTracksGids(target, sources);
      var _ := metas.MergeTracksGids(target, sources);
      var _ := foreignIds.MergeTracksGids(target, sources);
      MergeKeepsKeys(tracks, sources, target, fingerprints);
      MergeKeepsOnTracks(tracks, old(mbids.Snapshot()), mbids.Snapshot(), sources, target, true);
      MergeKeepsOnTracks(tracks, old(puids.Snapshot()), puids.Snapshot(), sources, target, false);
      MergeKeepsOnTracks(tracks, old(metas.Snapshot()), metas.Snapshot(), sources, target, false);
      MergeKeepsOnTracks(tracks, old(foreignIds.Snapshot()), foreignIds.Snapshot(), sources, target, false);
      fingerprints := Moved(fingerprints, sources, target);
      tracks := Repointed(tracks, sources, target);
    }
  }

  /** A table after the merge, or as it was if the merge failed. */
  ghost predicate LinksMerged(ok: bool, t: Tables, t': Tables, tracks: set<int>, target: int, isMbid: bool) {
    if ok then TracksMerged(t, t', tracks, target, isMbid) else t' == t
  }

  ghost predicate OnTracks(tracks: Tracks, rows: Rows) {
    forall id :: id in rows ==> rows[id].track in tracks
  }

  ghost predicate RedirectsExist(tracks: Tracks) {
    forall t :: t in tracks && tracks[t].newId.Some? ==> tracks[t].newId.value in tracks
  }

  ghost predicate GidsUnique(tracks: Tracks) {
    forall s, t :: s in tracks && t in tracks && tracks[s].gid == tracks[t].gid ==> s == t
  }

  lemma InsertKeepsRedirects(tracks: Tracks, id: int, gid: int)
    requires RedirectsExist(tracks) && id !in tracks
    ensures RedirectsExist(tracks[id := Track(gid, None)])
  {
  }

  lemma UnmergedSurvive(table: LinkTable, tracks: set<int>)
    requires table.Valid() && !table.isMbid
    ensures ReferencesSurvive(table.rows, tracks)
  {
  }

  lemma MergeKeepsKeys(tracks: Tracks, sources: set<int>, target: int, fingerprints: Fingerprints)
    requires RedirectsExist(tracks) && GidsUnique(tracks) && (target in tracks || !Moves(tracks, sources))
    requires forall f :: f in fingerprints ==> fingerprints[f] in tracks
    ensures RedirectsExist(Repointed(tracks, sources, target)) && GidsUnique(Repointed(tracks, sources, target))
    ensures forall f :: f in fingerprints ==> Moved(fingerprints, sources, target)[f] in tracks
  {
    if target !in tracks {
      forall t | t in tracks
        ensures t !in sources
      {
      }
    }
  }

  lemma MergeKeepsOnTracks(tracks: Tracks, t: Tables, t': Tables, sources: set<int>, target: int, isMbid: bool)
    requires OnTracks(tracks, t.rows) && TracksMerged(t, t', sources + {target}, target, isMbid)
    requires target in tracks || !Moves(tracks, sources)
    ensures OnTracks(tracks, t'.rows) && OnTracks(Repointed(tracks, sources, target), t'.rows)
  {
    hide Survives, Home, Group;
    forall id | id in t'.rows
      ensures t'.rows[id].track in tracks
    {
      if t.rows[id].track in sources {
        assert Moves(tracks, sources);
      }
    }
  }
}
