/** Tracks that have been merged point at the track they were merged into. Resolving a track
    follows one redirect; that is enough as long as every merge names the roots involved. */
module Redirects {
  import opened Closure
  import opened Wrappers

  /** A row of track: its gid and new_id. */
  datatype Track = Track(gid: int, newId: Option<int>)

  type Tracks = map<int, Track>

  /** What `resolve_track_gid` answers once it has found the track. */
  function Resolve(tracks: Tracks, track: int): Option<int> {
    if track !in tracks then None
    else if tracks[track].newId.None? then Some(track)
    else if tracks[track].newId.value in tracks then tracks[track].newId
    else None
  }

  /** The last UPDATE of `merge_tracks`. */
  function Repointed(tracks: Tracks, sources: set<int>, target: int): Tracks {
    map t | t in tracks ::
      if t in sources || (tracks[t].newId.Some? && tracks[t].newId.value in sources) then tracks[t].(newId := Some(target))
      else tracks[t]
  }

  predicate IsRoot(tracks: Tracks, track: int) {
    Resolve(tracks, track) == Some(track)
  }

  /** Redirects are one hop deep: whatever a track resolves to resolves to itself. */
  ghost predicate OneHop(tracks: Tracks) {
    forall t :: t in tracks ==> Resolve(tracks, t).Some? && IsRoot(tracks, Resolve(tracks, t).value)
  }

  /** The pairs (source, target) of the merges performed. */
  type Merges = Pairs

  // ----- what resolving is worth ---------------------------------------------------------

  /** Two tracks resolve to the same one exactly if the merges relate them. */
  ghost predicate Faithful(tracks: Tracks, merges: Merges) {
    forall a, b :: a in tracks && b in tracks ==> (Resolve(tracks, a) == Resolve(tracks, b) <==> Connected(merges, a, b))
  }

  /** The invariant behind it. */
  ghost predicate Sound(tracks: Tracks, merges: Merges) {
    && OneHop(tracks)
    && (forall m :: m in merges ==> m.0 in tracks && m.1 in tracks && Resolve(tracks, m.0) == Resolve(tracks, m.1))
    && (forall t :: t in tracks ==> Resolve(tracks, t).Some? && Connected(merges, t, Resolve(tracks, t).value))
  }

  lemma {:induction false} PathResolvesAlike(tracks: Tracks, merges: Merges, p: seq<int>, a: int, b: int)
    requires Sound(tracks, merges) && Path(merges, p, a, b)
    ensures Resolve(tracks, a) == Resolve(tracks, b)
    decreases |p|
  {
    if |p| > 1 {
      assert Joined(merges, p[0], p[1]);
      assert Path(merges, p[1..], p[1], b) by {
        assert forall i :: 0 < i < |p| - 1 ==> p[1..][i] == p[1 + i] && Joined(merges, p[1 + i - 1], p[1 + i]);
      }
      PathResolvesAlike(tracks, merges, p[1..], p[1], b);
    }
  }

  lemma SoundIsFaithful(tracks: Tracks, merges: Merges)
    requires Sound(tracks, merges)
    ensures Faithful(tracks, merges)
  {
    forall a, b | a in tracks && b in tracks
      ensures Resolve(tracks, a) == Resolve(tracks, b) <==> Connected(merges, a, b)
    {
      if Connected(merges, a, b) {
        var p :| Path(merges, p, a, b);
        PathResolvesAlike(tracks, merges, p, a, b);
      } else if Resolve(tracks, a) == Resolve(tracks, b) {
        var r := Resolve(tracks, a).value;
        ConnectedBackwards(merges, b, r);
        ConnectedTransitively(merges, a, r, b);
      }
    }
  }

  // ----- one merge ------------------------------------------------------------------------

  /** Every track named in the merge has its root named too. */
  predicate NamesRoots(tracks: Tracks, sources: set<int>, target: int) {
    forall x :: x in sources + {target} && x in tracks ==>
      Resolve(tracks, x).Some? && Resolve(tracks, x).value in sources + {target}
  }

  function PairsOf(tracks: Tracks, sources: set<int>, target: int): Merges {
    set s | s in sources && s in tracks :: (s, target)
  }

  /** Some track is moved. */
  predicate Moves(tracks: Tracks, sources: set<int>) {
    exists s :: s in sources && s in tracks
  }

  lemma ResolvesAfter(tracks: Tracks, sources: set<int>, target: int, x: int)
    requires OneHop(tracks) && target in tracks && NamesRoots(tracks, sources, target) && x in tracks
    ensures
      var tracks' := Repointed(tracks, sources, target);
      var r := Resolve(tracks, x).value;
      Resolve(tracks', x) == Some(if r in sources + {target} then target else r)
  {
  }

  lemma MergeKeepsOneHop(tracks: Tracks, sources: set<int>, target: int)
    requires OneHop(tracks) && target in tracks && NamesRoots(tracks, sources, target)
    ensures OneHop(Repointed(tracks, sources, target))
  {
    hide NamesRoots, Resolve;
    var tracks' := Repointed(tracks, sources, target);
    forall x | x in tracks'
      ensures Resolve(tracks', x).Some? && IsRoot(tracks', Resolve(tracks', x).value)
    {
      ResolvesAfter(tracks, sources, target, x);
      RootsExist(tracks, x);
      ResolvesAfter(tracks, sources, target, Resolve(tracks, x).value);
      RootOfNamed(tracks, sources, target);
      ResolvesAfter(tracks, sources, target, target);
    }
  }

  lemma RootsExist(tracks: Tracks, x: int)
    requires OneHop(tracks) && x in tracks
    ensures Resolve(tracks, x).Some? && Resolve(tracks, x).value in tracks
    ensures Resolve(tracks, Resolve(tracks, x).value) == Resolve(tracks, x)
  {
  }

  lemma RootOfNamed(tracks: Tracks, sources: set<int>, target: int)
    requires target in tracks && NamesRoots(tracks, sources, target)
    ensures Resolve(tracks, target).Some? && Resolve(tracks, target).value in sources + {target}
    ensures forall s :: s in sources && s in tracks ==>
              Resolve(tracks, s).Some? && Resolve(tracks, s).value in sources + {target}
  {
  }

  /** A merge that names the roots keeps the invariant. */
  lemma MergeKeepsSound(tracks: Tracks, merges: Merges, sources: set<int>, target: int)
    requires Sound(tracks, merges) && target in tracks && NamesRoots(tracks, sources, target)
    ensures Sound(Repointed(tracks, sources, target), merges + PairsOf(tracks, sources, target))
  {
    hide NamesRoots, Resolve, OneHop, Connected, Joined;
    var tracks', more := Repointed(tracks, sources, target), merges + PairsOf(tracks, sources, target);
    MergeKeepsOneHop(tracks, sources, target);
    RootOfNamed(tracks, sources, target);
    forall m | m in more
      ensures m.0 in tracks' && m.1 in tracks' && Resolve(tracks', m.0) == Resolve(tracks', m.1)
    {
      ResolvesAfter(tracks, sources, target, m.0);
      ResolvesAfter(tracks, sources, target, m.1);
    }
    forall x | x in tracks
      ensures Resolve(tracks', x).Some? && Connected(more, x, Resolve(tracks', x).value)
    {
      MergeKeepsConnected(tracks, merges, sources, target, x);
    }
  }

  lemma MergeKeepsConnected(tracks: Tracks, merges: Merges, sources: set<int>, target: int, x: int)
    requires Sound(tracks, merges) && target in tracks && NamesRoots(tracks, sources, target) && x in tracks
    ensures
      var x' := Resolve(Repointed(tracks, sources, target), x);
      x'.Some? && Connected(merges + PairsOf(tracks, sources, target), x, x'.value)
  {
    hide NamesRoots, Connected;
    var more := merges + PairsOf(tracks, sources, target);
    ResolvesAfter(tracks, sources, target, x);
    RootsExist(tracks, x);
    var r := Resolve(tracks, x).value;
    ConnectedStays(merges, more, x, r);
    if r in sources {
      assert (r, target) in more;
      JoinedIsConnected(more, r, target);
      ConnectedTransitively(more, x, r, target);
    }
  }

  /** Resolving keeps giving related tracks the same answer exactly if the merge names the
      roots, or moves nothing. */
  lemma MergeIsFaithfulIff(tracks: Tracks, merges: Merges, sources: set<int>, target: int)
    requires Sound(tracks, merges) && target in tracks
    ensures Faithful(Repointed(tracks, sources, target), merges + PairsOf(tracks, sources, target))
       <==> (NamesRoots(tracks, sources, target) || !Moves(tracks, sources))
  {
    hide Connected, Joined, Sound;
    var tracks', more := Repointed(tracks, sources, target), merges + PairsOf(tracks, sources, target);
    if NamesRoots(tracks, sources, target) {
      MergeKeepsSound(tracks, merges, sources, target);
      SoundIsFaithful(tracks', more);
    } else if !Moves(tracks, sources) {
      NothingMoves(tracks, merges, sources, target);
      SoundIsFaithful(tracks', more);
    } else {
      UnnamedRootIsLost(tracks, merges, sources, target);
    }
  }

  lemma NothingMoves(tracks: Tracks, merges: Merges, sources: set<int>, target: int)
    requires Sound(tracks, merges) && !Moves(tracks, sources)
    ensures Repointed(tracks, sources, target) == tracks && PairsOf(tracks, sources, target) == {}
    ensures merges + PairsOf(tracks, sources, target) == merges
  {
    hide Connected;
    forall t | t in tracks
      ensures t !in sources && !(tracks[t].newId.Some? && tracks[t].newId.value in sources)
    {
      assert Resolve(tracks, t).Some?;
    }
  }

  lemma UnnamedRootIsLost(tracks: Tracks, merges: Merges, sources: set<int>, target: int)
    requires Sound(tracks, merges) && target in tracks && Moves(tracks, sources) && !NamesRoots(tracks, sources, target)
    ensures !Faithful(Repointed(tracks, sources, target), merges + PairsOf(tracks, sources, target))
  {
    hide Connected;
    var tracks', more := Repointed(tracks, sources, target), merges + PairsOf(tracks, sources, target);
    var x :| x in sources + {target} && x in tracks && Resolve(tracks, x).value !in sources + {target};
    var s :| s in sources && s in tracks && (x in sources ==> s == x);
    var r := Resolve(tracks, x).value;
    RootsExist(tracks, x);
    assert Resolve(tracks', r) == Some(r) && Resolve(tracks', s) == Some(target);
    ConnectedStays(merges, more, x, r);
    assert (s, target) in more;
    JoinedIsConnected(more, s, target);
    if x == target {
      ConnectedTransitively(more, s, target, r);
    }
    assert Connected(more, s, r);
  }

  // ----- fingerprints ---------------------------------------------------------------------

  /** A fingerprint id and the track it is on. */
  type Fingerprints = map<nat, int>

  /** The UPDATE of fingerprint in `merge_tracks`. */
  function Moved(fingerprints: Fingerprints, sources: set<int>, target: int): Fingerprints {
    map f | f in fingerprints :: if fingerprints[f] in sources then target else fingerprints[f]
  }

  /** A fingerprint on a merged track goes where its track now resolves to; no other moves. */
  lemma MovedToTheRoot(tracks: Tracks, fingerprints: Fingerprints, sources: set<int>, target: int)
    requires Settled(tracks, fingerprints) && target in tracks && NamesRoots(tracks, sources, target)
    ensures
      var tracks', fingerprints' := Repointed(tracks, sources, target), Moved(fingerprints, sources, target);
      && fingerprints'.Keys == fingerprints.Keys
      && (forall f :: f in fingerprints ==> Resolve(tracks', fingerprints[f]) == Some(fingerprints'[f]))
      && (forall f :: f in fingerprints && fingerprints[f] !in sources ==> fingerprints'[f] == fingerprints[f])
  {
    hide NamesRoots, OneHop;
    forall f | f in fingerprints
      ensures Resolve(Repointed(tracks, sources, target), fingerprints[f]) == Some(Moved(fingerprints, sources, target)[f])
    {
      ResolvesAfter(tracks, sources, target, fingerprints[f]);
    }
  }

  /** What was so before the merge still is: a track that resolved like another does so. */
  lemma ResolvesOn(tracks: Tracks, sources: set<int>, target: int, x: int, r: int)
    requires OneHop(tracks) && target in tracks && NamesRoots(tracks, sources, target)
    requires x in tracks && Resolve(tracks, x) == Some(r)
    ensures r in tracks && Resolve(Repointed(tracks, sources, target), x) == Resolve(Repointed(tracks, sources, target), r)
  {
    RootsExist(tracks, x);
    ResolvesAfter(tracks, sources, target, x);
    ResolvesAfter(tracks, sources, target, r);
  }

  /** Redirects are one hop deep and every fingerprint sits on a root. */
  ghost predicate Settled(tracks: Tracks, fingerprints: Fingerprints) {
    && OneHop(tracks)
    && forall f :: f in fingerprints ==> IsRoot(tracks, fingerprints[f])
  }

  /** A merge that names the roots keeps every fingerprint on a root. */
  lemma MergeKeepsSettled(tracks: Tracks, fingerprints: Fingerprints, sources: set<int>, target: int)
    requires Settled(tracks, fingerprints) && target in tracks && NamesRoots(tracks, sources, target)
    ensures Settled(Repointed(tracks, sources, target), Moved(fingerprints, sources, target))
  {
    hide NamesRoots, OneHop;
    var tracks', fingerprints' := Repointed(tracks, sources, target), Moved(fingerprints, sources, target);
    MergeKeepsOneHop(tracks, sources, target);
    RootOfNamed(tracks, sources, target);
    ResolvesAfter(tracks, sources, target, target);
    forall f | f in fingerprints'
      ensures IsRoot(tracks', fingerprints'[f])
    {
      ResolvesAfter(tracks, sources, target, fingerprints[f]);
    }
  }

  /** A new track is a root, and so are those that were. */
  lemma InsertKeepsSettled(tracks: Tracks, fingerprints: Fingerprints, id: int, gid: int)
    requires Settled(tracks, fingerprints) && id !in tracks
    ensures Settled(tracks[id := Track(gid, None)], fingerprints) && IsRoot(tracks[id := Track(gid, None)], id)
  {
    var tracks' := tracks[id := Track(gid, None)];
    forall t | t in tracks'
      ensures t in tracks ==> Resolve(tracks', t) == Resolve(tracks, t)
    {
    }
  }

  // ----- runs -----------------------------------------------------------------------------

  /** The importer puts a fingerprint on a track; nothing else does. */
  datatype Step = Insert(id: int, gid: int) | Put(fingerprint: nat, track: int) | Merge(target: int, sources: set<int>)

  /** `placed` is the track each fingerprint was added to. */
  datatype World = World(tracks: Tracks, merges: Merges, fingerprints: Fingerprints, placed: Fingerprints)

  const EMPTY := World(map[], {}, map[], map[])

  /** What the tables allow: a fresh track, a fresh fingerprint on an existing track, a merge
      into an existing track. */
  predicate May(w: World, step: Step) {
    match step
    case Insert(id, _) => id !in w.tracks
    case Put(fingerprint, track) => fingerprint !in w.fingerprints && track in w.tracks
    case Merge(target, _) => target in w.tracks
  }

  function Next(w: World, step: Step): World {
    match step
    case Insert(id, gid) => w.(tracks := w.tracks[id := Track(gid, None)])
    case Put(fingerprint, track) => 
      w.(fingerprints := w.fingerprints[fingerprint := track], placed := w.placed[fingerprint := track])
    case Merge(target, sources) =>
      World(Repointed(w.tracks, sources, target), w.merges + PairsOf(w.tracks, sources, target),
            Moved(w.fingerprints, sources, target), w.placed)
  }

  /** A merge names the roots of its tracks, and a fingerprint goes on a root. The importer
      does the latter: it picks a new track or one that already has a fingerprint. */
  predicate IsCareful(w: World, step: Step) {
    match step
    case Insert(_, _) => true
    case Put(_, track) => IsRoot(w.tracks, track)
    case Merge(target, sources) => NamesRoots(w.tracks, sources, target)
  }

  ghost predicate Follows(w: World, step: Step, w': World) {
    May(w, step) && w' == Next(w, step)
  }

  /** A run from the empty tables. */
  ghost predicate Run(steps: seq<Step>, w: World) {
    if steps == [] then w == EMPTY
    else
      var last := steps[|steps| - 1];
      exists v :: Run(steps[..|steps| - 1], v) && Follows(v, last, w)
  }

  /** A run of careful steps. */
  ghost predicate CarefulRun(steps: seq<Step>, w: World) {
    if steps == [] then w == EMPTY
    else
      var last := steps[|steps| - 1];
      exists v :: CarefulRun(steps[..|steps| - 1], v) && Follows(v, last, w) && IsCareful(v, last)
  }

  /** Every fingerprint sits where the track it was added to resolves to. */
  ghost predicate InPlace(w: World) {
    && w.fingerprints.Keys == w.placed.Keys
    && forall f :: f in w.placed ==> w.placed[f] in w.tracks && Resolve(w.tracks, w.placed[f]) == Some(w.fingerprints[f])
  }

  lemma StepKeepsInPlace(w: World, step: Step)
    requires InPlace(w) && Settled(w.tracks, w.fingerprints) && May(w, step) && IsCareful(w, step)
    ensures InPlace(Next(w, step))
  {
    var w' := Next(w, step);
    match step {
      case Insert(id, gid) => InsertKeepsInPlace(w, id, gid);
      case Put(fingerprint, track) =>
      case Merge(target, sources) =>
        hide OneHop, NamesRoots, Resolve;
        MovedToTheRoot(w.tracks, w.fingerprints, sources, target);
        forall f | f in w.placed
          ensures Resolve(w'.tracks, w.placed[f]) == Some(w'.fingerprints[f])
        {
          ResolvesOn(w.tracks, sources, target, w.placed[f], w.fingerprints[f]);
        }
    }
  }

  lemma InsertKeepsInPlace(w: World, id: int, gid: int)
    requires InPlace(w) && Settled(w.tracks, w.fingerprints) && id !in w.tracks
    ensures InPlace(w.(tracks := w.tracks[id := Track(gid, None)]))
  {
    var tracks' := w.tracks[id := Track(gid, None)];
    forall t | t in w.tracks
      ensures Resolve(tracks', t) == Resolve(w.tracks, t)
    {
      RootsExist(w.tracks, t);
    }
  }

  lemma InsertKeepsSound(w: World, id: int, gid: int)
    requires Sound(w.tracks, w.merges) && id !in w.tracks
    ensures Sound(w.tracks[id := Track(gid, None)], w.merges)
  {
    hide Connected;
    var tracks' := w.tracks[id := Track(gid, None)];
    forall x | x in tracks'
      ensures x in w.tracks ==> Resolve(w.tracks, x).Some? && Resolve(tracks', x) == Resolve(w.tracks, x)
      ensures x == id ==> Resolve(tracks', x) == Some(id)
      ensures Resolve(tracks', x).Some? && Connected(w.merges, x, Resolve(tracks', x).value)
    {
      if x == id {
        ConnectedToItself(w.merges, id);
      }
    }
  }

  lemma StepIsSound(w: World, step: Step)
    requires Sound(w.tracks, w.merges) && Settled(w.tracks, w.fingerprints) && May(w, step) && IsCareful(w, step)
    ensures
      var w' := Next(w, step);
      Sound(w'.tracks, w'.merges) && Settled(w'.tracks, w'.fingerprints)
  {
    match step {
      case Insert(id, gid) =>
        InsertKeepsSound(w, id, gid);
        InsertKeepsSettled(w.tracks, w.fingerprints, id, gid);
      case Put(fingerprint, track) =>
      case Merge(target, sources) =>
        MergeKeepsSound(w.tracks, w.merges, sources, target);
        MergeKeepsSettled(w.tracks, w.fingerprints, sources, target);
    }
  }

  /** Through every careful run the invariant holds, and every fingerprint sits on a root: the
      one that the track it was added to resolves to. */
  lemma {:induction false} RunIsSound(steps: seq<Step>, w: World)
    requires CarefulRun(steps, w)
    ensures Sound(w.tracks, w.merges) && Settled(w.tracks, w.fingerprints) && InPlace(w)
    decreases |steps|
  {
    hide Sound, Settled, IsCareful, Next, InPlace;
    if steps == [] {
      NothingIsSound();
    } else {
      var last := steps[|steps| - 1];
      var v :| CarefulRun(steps[..|steps| - 1], v) && Follows(v, last, w) && IsCareful(v, last);
      RunIsSound(steps[..|steps| - 1], v);
      StepIsSound(v, last);
      StepKeepsInPlace(v, last);
    }
  }

  lemma NothingIsSound()
    ensures Sound(EMPTY.tracks, EMPTY.merges) && Settled(EMPTY.tracks, EMPTY.fingerprints) && InPlace(EMPTY)
  {
  }

  /** Through any such run redirects stay one hop deep, and following that one hop gives two
      tracks the same answer exactly if the equivalence closure of the merges relates them. */
  lemma ResolvingIsTheClosure(steps: seq<Step>, w: World, a: int, b: int)
    requires CarefulRun(steps, w) && a in w.tracks && b in w.tracks
    ensures OneHop(w.tracks)
    ensures Resolve(w.tracks, a) == Resolve(w.tracks, b) <==> Connected(w.merges, a, b)
  {
    hide CarefulRun, Connected, Settled;
    RunIsSound(steps, w);
    SoundIsFaithful(w.tracks, w.merges);
  }

  // ----- merges of roots --------------------------------------------------------------------

  /** The plain discipline: only roots are merged, into roots, and a fingerprint goes on a new
      track or beside another fingerprint. */
  predicate IsPlain(w: World, step: Step) {
    match step
    case Insert(_, _) => true
    case Put(_, track) => (track in w.tracks && w.tracks[track].newId.None?) || track in w.fingerprints.Values
    case Merge(target, sources) => forall x :: x in sources + {target} && x in w.tracks ==> IsRoot(w.tracks, x)
  }

  ghost predicate PlainRun(steps: seq<Step>, w: World) {
    if steps == [] then w == EMPTY
    else
      var last := steps[|steps| - 1];
      exists v :: PlainRun(steps[..|steps| - 1], v) && Follows(v, last, w) && IsPlain(v, last)
  }

  lemma PlainIsCareful(w: World, step: Step)
    requires Settled(w.tracks, w.fingerprints) && IsPlain(w, step)
    ensures IsCareful(w, step)
  {
    if step.Put? && step.track in w.fingerprints.Values {
      var f :| f in w.fingerprints && w.fingerprints[f] == step.track;
    }
  }

  /** Runs of that discipline are careful: with merges of roots alone, everything above holds. */
  lemma {:induction false} PlainRunIsCareful(steps: seq<Step>, w: World)
    requires PlainRun(steps, w)
    ensures CarefulRun(steps, w)
    decreases |steps|
  {
    hide Settled, Sound, IsCareful, IsPlain, Follows;
    if steps != [] {
      var last := steps[|steps| - 1];
      var v :| PlainRun(steps[..|steps| - 1], v) && Follows(v, last, w) && IsPlain(v, last);
      PlainRunIsCareful(steps[..|steps| - 1], v);
      RunIsSound(steps[..|steps| - 1], v);
      PlainIsCareful(v, last);
    }
  }

  // ----- a merge that forgets a root ----------------------------------------------------------

  lemma RunGoesOn(steps: seq<Step>, w: World, step: Step)
    requires Run(steps, w) && May(w, step)
    ensures Run(steps + [step], Next(w, step))
  {
    hide May, Next;
    var all := steps + [step];
    assert all[..|all| - 1] == steps;
    assert Run(all[..|all| - 1], w) && Follows(w, all[|all| - 1], Next(w, step));
  }

  lemma ThreeTracks() returns (steps: seq<Step>)
    ensures Run(steps, World(map[1 := Track(1, None), 2 := Track(2, None), 3 := Track(3, None)], {}, map[], map[]))
  {
    hide Run;
    NothingIsARun();
    RunGoesOn([], EMPTY, Insert(1, 1));
    var w1 := Next(EMPTY, Insert(1, 1));
    RunGoesOn([] + [Insert(1, 1)], w1, Insert(2, 2));
    var w2 := Next(w1, Insert(2, 2));
    RunGoesOn([] + [Insert(1, 1)] + [Insert(2, 2)], w2, Insert(3, 3));
    steps := [] + [Insert(1, 1)] + [Insert(2, 2)] + [Insert(3, 3)];
    assert Next(w2, Insert(3, 3)) == World(map[1 := Track(1, None), 2 := Track(2, None), 3 := Track(3, None)], {}, map[], map[]);
  }

  lemma NothingIsARun()
    ensures Run([], EMPTY)
  {
  }

  /** Track 2 is merged into 1 and then into 3, without naming 1: the merges relate 1 and 2,
      and they resolve apart. */
  lemma ForgottenRootIsLost() returns (steps: seq<Step>, w: World)
    ensures Run(steps, w) && 1 in w.tracks && 2 in w.tracks
    ensures Connected(w.merges, 1, 2) && Resolve(w.tracks, 1) != Resolve(w.tracks, 2)
  {
    hide Run, Connected;
    var first := ThreeTracks();
    var w0 := World(map[1 := Track(1, None), 2 := Track(2, None), 3 := Track(3, None)], {}, map[], map[]);
    RunGoesOn(first, w0, Merge(1, {2}));
    var w1 := Next(w0, Merge(1, {2}));
    RunGoesOn(first + [Merge(1, {2})], w1, Merge(3, {2}));
    steps, w := first + [Merge(1, {2})] + [Merge(3, {2})], Next(w1, Merge(3, {2}));
    assert (2, 1) in w1.merges;
    JoinedIsConnected(w.merges, 1, 2);
  }
}
