/** The import of a submission into the fingerprint database: `import_submission` of
    acoustid/data/submission.py, with `can_add_fp_to_track`, `insert_fingerprint` and
    `inc_fingerprint_submission_count`. Imports run one after the other. */
module TrackCliques {
  import opened Sets
  import opened Wrappers
  import opened LinkTables
  import opened Links
  import opened MergeGroups

  const TRACK_MERGE_THRESHOLD := 0.75
  const FINGERPRINT_MERGE_THRESHOLD := 0.9
  const FINGERPRINT_MIN_UNIQUE_ITEMS := 80

  /** A row of fingerprint. */
  datatype Stored = Stored(track: int, length: int, data: seq<int>, count: int)

  type Fingerprints = map<nat, Stored>

  /** A submission, and what statements find out about it: how many items the extracted query
      has, its source if there is one, and the id of its meta unless that is not found. The nil
      UUID counts as no MBID or PUID. */
  datatype Submission = Submission(id: nat, data: seq<int>, length: int, mbid: Option<int>, puid: Option<int>,
                                   hasMeta: bool, metaId: Option<int>, foreignId: Option<int>,
                                   queryItems: nat, source: Option<int>)

  /** A row of submission_result, as far as it concerns the fingerprint. */
  datatype Imported = Imported(fingerprint: nat, track: int)

  // ----- similarity ----------------------------------------------------------------------

  predicate Fits(score: Score, stored: Stored, data: seq<int>, length: int) {
    !(score(stored.data, data) < TRACK_GROUP_MERGE_THRESHOLD) && !(Abs(stored.length - length) > FINGERPRINT_MAX_LENGTH_DIFF)
  }

  /** Every fingerprint of the track is like the new one. */
  predicate CanAdd(score: Score, fps: Fingerprints, track: int, data: seq<int>, length: int) {
    forall f :: f in fps && fps[f].track == track ==> Fits(score, fps[f], data, length)
  }

  /** Every two fingerprints of a track are alike. */
  ghost predicate Cliques(score: Score, fps: Fingerprints) {
    forall f, g :: f in fps && g in fps && f != g && fps[f].track == fps[g].track ==>
      score(fps[f].data, fps[g].data) >= TRACK_GROUP_MERGE_THRESHOLD
      && Abs(fps[f].length - fps[g].length) <= FINGERPRINT_MAX_LENGTH_DIFF
  }

  /** What the search answers: stored fingerprints of about the same length that score above
      the threshold, best first. */
  ghost predicate IsAnswer(score: Score, fps: Fingerprints, data: seq<int>, length: int, matches: seq<nat>) {
    && (forall i :: 0 <= i < |matches| ==>
          && matches[i] in fps
          && score(fps[matches[i]].data, data) > TRACK_MERGE_THRESHOLD
          && Abs(fps[matches[i]].length - length) <= FINGERPRINT_MAX_LENGTH_DIFF)
    && (forall i, j :: 0 <= i < j < |matches| ==>
          score(fps[matches[i]].data, data) >= score(fps[matches[j]].data, data))
  }

  /** The choice: the first match whose track takes the fingerprint. */
  ghost predicate IsChoice(score: Score, fps: Fingerprints, data: seq<int>, length: int, matches: seq<nat>, i: nat)
    requires forall k :: 0 <= k < |matches| ==> matches[k] in fps
  {
    && i < |matches|
    && CanAdd(score, fps, fps[matches[i]].track, data, length)
    && forall k :: 0 <= k < i ==> !CanAdd(score, fps, fps[matches[k]].track, data, length)
  }

  // ----- counting --------------------------------------------------------------------------

  /** The sum of all submission counts. */
  function Total(fps: Fingerprints, ids: set<nat>): int
    requires ids <= fps.Keys
  {
    if ids == {} then 0 else fps[Least(ids)].count + Total(fps, ids - {Least(ids)})
  }

  lemma {:induction false} TotalWithout(fps: Fingerprints, ids: set<nat>, id: nat)
    requires ids <= fps.Keys && id in ids
    ensures Total(fps, ids) == fps[id].count + Total(fps, ids - {id})
  {
    var x := Least(ids);
    if id != x {
      TotalWithout(fps, ids - {x}, id);
      TotalWithout(fps, ids - {id}, x);
      assert ids - {x} - {id} == ids - {id} - {x};
    }
  }

  lemma {:induction false} TotalSame(fps: Fingerprints, fps': Fingerprints, ids: set<nat>)
    requires ids <= fps.Keys && ids <= fps'.Keys && forall id :: id in ids ==> fps'[id].count == fps[id].count
    ensures Total(fps', ids) == Total(fps, ids)
  {
    if ids != {} {
      TotalSame(fps, fps', ids - {Least(ids)});
    }
  }

  lemma TotalAfter(fps: Fingerprints, id: nat, stored: Stored)
    ensures
      var fps' := fps[id := stored];
      Total(fps', fps'.Keys) == Total(fps, fps.Keys) + stored.count - if id in fps then fps[id].count else 0
  {
    var fps' := fps[id := stored];
    var rest := fps.Keys - {id};
    TotalWithout(fps', fps'.Keys, id);
    assert fps'.Keys - {id} == rest;
    TotalSame(fps, fps', rest);
    if id in fps {
      TotalWithout(fps, fps.Keys, id);
    } else {
      assert rest == fps.Keys;
    }
  }

  /** Every fingerprint counts its rows in fingerprint_source. */
  ghost predicate CountsSources(fps: Fingerprints, sources: seq<Source>) {
    forall f :: f in fps ==> fps[f].count == CountIn(sources, {f})
  }

  ghost predicate SourcesExist(fps: Fingerprints, sources: seq<Source>) {
    forall i :: 0 <= i < |sources| ==> sources[i].link in fps
  }

  lemma CountedOnce(fps: Fingerprints, sources: seq<Source>, id: nat, stored: Stored, s: Source)
    requires CountsSources(fps, sources) && SourcesExist(fps, sources) && s.link == id
    requires stored.count == 1 + if id in fps then fps[id].count else 0
    ensures CountsSources(fps[id := stored], sources + [s]) && SourcesExist(fps[id := stored], sources + [s])
  {
    if id !in fps {
      CountNone(sources, {id});
    }
    forall f | f in fps[id := stored]
      ensures fps[id := stored][f].count == CountIn(sources + [s], {f})
    {
      CountSnoc(sources, s, {f});
    }
  }

  lemma OneMoreInClique(score: Score, fps: Fingerprints, id: nat, stored: Stored)
    requires Symmetric(score) && Cliques(score, fps) && id !in fps
    requires CanAdd(score, fps, stored.track, stored.data, stored.length)
    ensures Cliques(score, fps[id := stored])
  {
  }

  // ----- the import --------------------------------------------------------------------------

  /** The track has one vote more for the gid, with a source row of the submission; or nothing
      has changed, for want of a gid. */
  ghost predicate LinkAdded(t: Tables, t': Tables, track: int, gid: Option<int>, submission: nat, source: int) {
    if gid.None? then t' == t
    else exists id: nat ::
           Voted(t, t', id, track, gid.value) && t'.sources == t.sources + [Source(id, Some(submission), source)]
  }

  class Importer {
    const score: Score
    const mbids: LinkTable
    const puids: LinkTable
    const metas: LinkTable
    const foreignIds: LinkTable
    var tracks: set<int>
    var fingerprints: Fingerprints
    var sources: seq<Source>
    var results: map<nat, Imported>
    var nextTrack: int
    var nextFingerprint: nat

    constructor (score: Score)
      requires Symmetric(score)
      ensures Valid() && fresh(Repr()) && fingerprints == map[] && sources == [] && results == map[]
      ensures this.score == score
    {
      hide LinkTable.Valid;
      this.score := score;
      mbids := new LinkTable(true);
      puids := new LinkTable(false);
      metas := new LinkTable(false);
      foreignIds := new LinkTable(false);
      tracks, fingerprints, sources, results, nextTrack, nextFingerprint := {}, map[], [], map[], 1, 1;
    }

    ghost function Repr(): set<object>
      reads this
    {
      {mbids, puids, metas, foreignIds}
    }

    ghost predicate LinksValid()
      reads this, Repr()
    {
      && mbids != puids && mbids != metas && mbids != foreignIds
      && puids != metas && puids != foreignIds && metas != foreignIds
      && mbids.Valid() && puids.Valid() && metas.Valid() && foreignIds.Valid()
    }

    ghost predicate Valid()
      reads this, Repr()
    {
      FingerprintsValid() && LinksValid()
    }

    ghost predicate FingerprintsValid()
      reads this
    {
      && Symmetric(score) && Cliques(score, fingerprints)
      && (forall f :: f in fingerprints ==> f < nextFingerprint && fingerprints[f].track in tracks)
      && (forall t :: t in tracks ==> 0 < t < nextTrack) && 0 < nextTrack
      && CountsSources(fingerprints, sources) && SourcesExist(fingerprints, sources)
    }

    /** `can_add_fp_to_track` */
    method CanAddFpToTrack(track: int, data: seq<int>, length: int) returns (ok: bool)
      ensures ok <==> CanAdd(score, fingerprints, track, data, length)
    {
      var todo := set f | f in fingerprints && fingerprints[f].track == track;
      while todo != {}
        invariant forall f :: f in todo ==> f in fingerprints
        invariant forall f :: f in fingerprints && fingerprints[f].track == track ==>
                    f in todo || Fits(score, fingerprints[f], data, length)
        invariant forall f :: f in todo ==> fingerprints[f].track == track
        decreases todo
      {
        var f :| f in todo;
        var stored := fingerprints[f];
        if score(stored.data, data) < TRACK_GROUP_MERGE_THRESHOLD {
          return false;
        }
        if Abs(stored.length - length) > FINGERPRINT_MAX_LENGTH_DIFF {
          return false;
        }
        todo := todo - {f};
      }
      ok := true;
    }

    /** The loop over the matches: tracks are looked at once, in the order of their best
        match; the first that takes the fingerprint is chosen, and the match itself is reused
        if it is close enough. */
    method Choose(data: seq<int>, length: int, matches: seq<nat>)
      returns (track: Option<int>, reused: Option<nat>, ghost at: nat)
      requires IsAnswer(score, fingerprints, data, length, matches)
      ensures track.None? ==> reused.None? && forall k :: 0 <= k < |matches| ==>
                !CanAdd(score, fingerprints, fingerprints[matches[k]].track, data, length)
      ensures track.Some? ==>
                && IsChoice(score, fingerprints, data, length, matches, at)
                && track.value == fingerprints[matches[at]].track
                && reused == if score(fingerprints[matches[at]].data, data) > FINGERPRINT_MERGE_THRESHOLD
                             then Some(matches[at]) else None
    {
      hide CanAdd;
      track, reused, at := None, None, 0;
      var allTracks: set<int> := {};
      for i := 0 to |matches|
        invariant forall t :: t in allTracks <==> exists k :: 0 <= k < i && fingerprints[matches[k]].track == t
        invariant track.None? ==> reused.None? && forall k :: 0 <= k < i ==>
                    !CanAdd(score, fingerprints, fingerprints[matches[k]].track, data, length)
        invariant track.Some? ==>
                    && IsChoice(score, fingerprints, data, length, matches, at)
                    && track.value == fingerprints[matches[at]].track
                    && reused == if score(fingerprints[matches[at]].data, data) > FINGERPRINT_MERGE_THRESHOLD
                                 then Some(matches[at]) else None
      {
        var t := fingerprints[matches[i]].track;
        if t !in allTracks {
          allTracks := allTracks + {t};
          var ok := CanAddFpToTrack(t, data, length);
          if ok && track.None? {
            track, at := Some(t), i;
            if score(fingerprints[matches[i]].data, data) > FINGERPRINT_MERGE_THRESHOLD {
              reused := Some(matches[i]);
            }
          }
        }
      }
    }

    /** `insert_fingerprint` */
    method InsertFingerprint(track: int, data: seq<int>, length: int, submission: nat, source: int) returns (id: nat)
      requires FingerprintsValid() && track in tracks && CanAdd(score, fingerprints, track, data, length)
      modifies this`fingerprints, this`sources, this`nextFingerprint
      ensures FingerprintsValid() && id !in old(fingerprints)
      ensures fingerprints == old(fingerprints)[id := Stored(track, length, data, 1)]
      ensures sources == old(sources) + [Source(id, Some(submission), source)]
    {
      hide CanAdd, CountsSources, Cliques;
      id := nextFingerprint;
      var stored := Stored(track, length, data, 1);
      OneMoreInClique(score, fingerprints, id, stored);
      CountedOnce(fingerprints, sources, id, stored, Source(id, Some(submission), source));
      fingerprints := fingerprints[id := stored];
      sources := sources + [Source(id, Some(submission), source)];
      nextFingerprint := nextFingerprint + 1;
    }

    /** `inc_fingerprint_submission_count` */
    method IncSubmissionCount(id: nat, submission: nat, source: int)
      requires FingerprintsValid() && id in fingerprints
      modifies this`fingerprints, this`sources
      ensures FingerprintsValid()
      ensures fingerprints == old(fingerprints)[id := old(fingerprints)[id].(count := old(fingerprints)[id].count + 1)]
      ensures sources == old(sources) + [Source(id, Some(submission), source)]
    {
      hide CountsSources;
      var stored := fingerprints[id].(count := fingerprints[id].count + 1);
      CountedOnce(fingerprints, sources, id, stored, Source(id, Some(submission), source));
      fingerprints := fingerprints[id := stored];
      sources := sources + [Source(id, Some(submission), source)];
    }

    /** `insert_track` */
    method InsertTrack() returns (track: int)
      requires FingerprintsValid()
      modifies this`tracks, this`nextTrack
      ensures FingerprintsValid() && track !in old(tracks) && tracks == old(tracks) + {track}
      ensures forall f :: f in fingerprints ==> fingerprints[f].track != track
    {
      track := nextTrack;
      tracks := tracks + {track};
      nextTrack := nextTrack + 1;
    }

    /** Everything up to the fingerprint: the track is chosen or new, and one fingerprint gets
        one vote more. */
    method ImportFingerprint(submission: Submission, matches: seq<nat>) returns (imported: Imported, ghost at: nat)
      requires FingerprintsValid() && IsAnswer(score, fingerprints, submission.data, submission.length, matches)
      requires IsComplete(submission)
      modifies this`tracks, this`nextTrack, this`fingerprints, this`sources, this`nextFingerprint
      ensures FingerprintsValid()
      ensures imported.fingerprint in fingerprints && fingerprints[imported.fingerprint].track == imported.track
      ensures sources == old(sources) + [Source(imported.fingerprint, Some(submission.id), submission.source.value)]
      ensures Total(fingerprints, fingerprints.Keys) == Total(old(fingerprints), old(fingerprints).Keys) + 1
      ensures OnlyChange(old(fingerprints), fingerprints, imported.fingerprint, submission, imported.track)
      ensures IsPlace(score, old(fingerprints), old(tracks), submission, matches, imported, at)
    {
      hide Cliques, CountsSources, SourcesExist, CanAdd, Symmetric, IsComplete;
      CompleteHasSource(submission);
      var source := submission.source.value;
      var track, reused;
      track, reused, at := Choose(submission.data, submission.length, matches);
      var chosen: int;
      if track.Some? {
        chosen := track.value;
        assert matches[at] in fingerprints;
      } else {
        chosen := InsertTrack();
        NewTrackTakesAll(score, fingerprints, chosen, submission.data, submission.length);
      }
      var id: nat;
      if reused.None? {
        id := InsertFingerprint(chosen, submission.data, submission.length, submission.id, source);
        TotalAfter(old(fingerprints), id, Stored(chosen, submission.length, submission.data, 1));
      } else {
        id := reused.value;
        TotalAfter(fingerprints, id, fingerprints[id].(count := fingerprints[id].count + 1));
        IncSubmissionCount(id, submission.id, source);
      }
      imported := Imported(id, chosen);
    }

    /** One of `insert_mbid`, `insert_puid`, `insert_track_meta` and `insert_track_foreignid`,
        where the submission has what it takes. */
    method AddLink(table: LinkTable, track: int, gid: Option<int>, submission: nat, source: int)
      requires table.Valid()
      modifies table
      ensures table.Valid() && LinkAdded(old(table.Snapshot()), table.Snapshot(), track, gid, submission, source)
    {
      hide LinkTable.Valid, Voted;
      if gid.Some? {
        var ok;
        ghost var id;
        ok, id := table.InsertGid(track, gid.value, Some(submission), Some(source));
      }
    }

    /** `import_submission`: nothing for a submission that is skipped; otherwise one vote more
        for one fingerprint, with one source row and one result, on a track that was chosen
        for it or is new, and one vote more for each of its MBID, PUID, meta and foreign id on
        that track. (Merging tracks is switched off in the source.) */
    method ImportSubmission(submission: Submission, matches: seq<nat>) returns (imported: Option<Imported>, ghost at: nat)
      requires Valid() && IsAnswer(score, fingerprints, submission.data, submission.length, matches)
      requires submission.id !in results
      modifies this, Repr()
      ensures Valid()
      ensures imported.Some? <==> IsComplete(submission)
      ensures imported.None? <==>
                || (submission.mbid.None? && submission.puid.None? && !submission.hasMeta)
                || |(set h | h in submission.data)| < FINGERPRINT_MIN_UNIQUE_ITEMS
                || submission.queryItems == 0
                || submission.source.None?
      ensures imported.None? ==> fingerprints == old(fingerprints) && sources == old(sources) && results == old(results)
                                 && tracks == old(tracks)
                                 && mbids.Snapshot() == old(mbids.Snapshot()) && puids.Snapshot() == old(puids.Snapshot())
                                 && metas.Snapshot() == old(metas.Snapshot())
                                 && foreignIds.Snapshot() == old(foreignIds.Snapshot())
      ensures imported.Some? ==>
                var id := imported.value.fingerprint;
                && id in fingerprints && fingerprints[id].track == imported.value.track
                && results == old(results)[submission.id := imported.value]
                && sources == old(sources) + [Source(id, Some(submission.id), submission.source.value)]
                && Total(fingerprints, fingerprints.Keys) == Total(old(fingerprints), old(fingerprints).Keys) + 1
                && OnlyChange(old(fingerprints), fingerprints, id, submission, imported.value.track)
                && IsPlace(score, old(fingerprints), old(tracks), submission, matches, imported.value, at)
      ensures imported.Some? ==>
                var track, source := imported.value.track, submission.source.value;
                && LinkAdded(old(mbids.Snapshot()), mbids.Snapshot(), track, submission.mbid, submission.id, source)
                && LinkAdded(old(puids.Snapshot()), puids.Snapshot(), track, submission.puid, submission.id, source)
                && LinkAdded(old(metas.Snapshot()), metas.Snapshot(), track,
                             if submission.hasMeta then submission.metaId else None, submission.id, source)
                && LinkAdded(old(foreignIds.Snapshot()), foreignIds.Snapshot(), track, submission.foreignId, submission.id, source)
    {
      hide Cliques, CountsSources, SourcesExist, CanAdd, Symmetric, LinkAdded, OnlyChange, IsPlace, Total, LinkTable.Valid, IsAnswer;
      imported, at := None, 0;
      if !IsComplete(submission) {
        return;
      }
      var done;
      done, at := ImportFingerprint(submission, matches);
      var source := submission.source.value;
      AddLink(mbids, done.track, submission.mbid, submission.id, source);
      AddLink(puids, done.track, submission.puid, submission.id, source);
      AddLink(metas, done.track, if submission.hasMeta then submission.metaId else None, submission.id, source);
      AddLink(foreignIds, done.track, submission.foreignId, submission.id, source);
      results := results[submission.id := done];
      imported := Some(done);
    }
  }

  lemma CompleteHasSource(submission: Submission)
    requires IsComplete(submission)
    ensures submission.source.Some?
  {
  }

  /** The checks before the search: some metadata, enough different items, something to
      index, and a source. */
  predicate IsComplete(submission: Submission) {
    && (submission.mbid.Some? || submission.puid.Some? || submission.hasMeta)
    && |(set h | h in submission.data)| >= FINGERPRINT_MIN_UNIQUE_ITEMS
    && submission.queryItems > 0
    && submission.source.Some?
  }

  lemma NewTrackTakesAll(score: Score, fps: Fingerprints, track: int, data: seq<int>, length: int)
    requires forall f :: f in fps ==> fps[f].track != track
    ensures CanAdd(score, fps, track, data, length)
  {
  }

  /** One fingerprint is new with one vote, or has one vote more. */
  ghost predicate OnlyChange(fps: Fingerprints, fps': Fingerprints, id: nat, submission: Submission, track: int) {
    fps' == fps[id := if id in fps then fps[id].(count := fps[id].count + 1)
                      else Stored(track, submission.length, submission.data, 1)]
  }

  /** Where the submission went: onto the track of the first match that takes it, as that
      very match if it is close enough; onto a new track if no match takes it. */
  ghost predicate IsPlace(score: Score, fps: Fingerprints, tracks: set<int>, submission: Submission, matches: seq<nat>,
                          imported: Imported, at: nat)
    requires forall k :: 0 <= k < |matches| ==> matches[k] in fps
  {
    if imported.track in tracks then
      && IsChoice(score, fps, submission.data, submission.length, matches, at)
      && imported.track == fps[matches[at]].track
      && (if score(fps[matches[at]].data, submission.data) > FINGERPRINT_MERGE_THRESHOLD
          then imported.fingerprint == matches[at] else imported.fingerprint !in fps)
    else
      && imported.fingerprint !in fps
      && forall k :: 0 <= k < |matches| ==> !CanAdd(score, fps, fps[matches[k]].track, submission.data, submission.length)
  }

  /** A reused fingerprint lies on the chosen track and is the best match there. */
  lemma ReusedIsBest(score: Score, fps: Fingerprints, tracks: set<int>, submission: Submission, matches: seq<nat>,
                     imported: Imported, at: nat)
    requires IsAnswer(score, fps, submission.data, submission.length, matches)
    requires IsPlace(score, fps, tracks, submission, matches, imported, at) && imported.fingerprint in fps
    ensures fps[imported.fingerprint].track == imported.track
    ensures score(fps[imported.fingerprint].data, submission.data) > FINGERPRINT_MERGE_THRESHOLD
    ensures forall k :: 0 <= k < |matches| && fps[matches[k]].track == imported.track ==>
              at <= k && score(fps[matches[k]].data, submission.data) <= score(fps[imported.fingerprint].data, submission.data)
  {
  }

  /** The total of all counts is the number of source rows. */
  lemma {:induction false} TotalIsSources(fps: Fingerprints, sources: seq<Source>, ids: set<nat>)
    requires CountsSources(fps, sources) && ids <= fps.Keys
    ensures Total(fps, ids) == CountIn(sources, ids)
  {
    if ids == {} {
      CountNone(sources, ids);
    } else {
      var x := Least(ids);
      TotalIsSources(fps, sources, ids - {x});
      CountDisjoint(sources, {x}, ids - {x});
      assert {x} + (ids - {x}) == ids;
    }
  }
}
