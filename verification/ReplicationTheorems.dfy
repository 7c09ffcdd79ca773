/** What holds in every state that any interleaving can reach. */
module ReplicationTheorems {
  import opened Calendar
  import opened Changelog
  import opened ChangelogSafety
  import opened Pages
  import opened Replication
  import opened Sets

  ghost predicate Reachable(extract: seq<int> -> seq<int>, s: State) {
    exists init, steps :: Init(init) && Run(extract, init, steps) && s == Exec(extract, init, steps)
  }

  lemma ReachableInv(extract: seq<int> -> seq<int>, s: State)
    requires Reachable(extract, s)
    ensures Inv(extract, s)
  {
    var init, steps :| Init(init) && Run(extract, init, steps) && s == Exec(extract, init, steps);
    InitInv(extract, init);
    RunKeepsInv(extract, init, steps);
  }

  /** Lock order is id order is commit order: the committed rows appear in id order and
      in time order, the uncommitted ones all belong to one transaction, the holder of
      the advisory lock, and all exceed every committed id. */
  lemma IdOrderIsCommitOrder(extract: seq<int> -> seq<int>, s: State)
    requires Reachable(extract, s)
    ensures forall i, j :: 0 <= i < j < |s.history| ==>
              s.history[i].id < s.history[j].id && AtMost(s.history[i].created, s.history[j].created)
    ensures forall t, u :: t in s.open && u in s.open && s.open[t].rows != [] && s.open[u].rows != [] ==> t == u
    ensures forall t, e, h :: t in s.open && e in s.open[t].rows && h in s.history ==> h.id < e.id
  {
    ReachableInv(extract, s);
    UncommittedOrdered(s);
    forall t, e, h | t in s.open && e in s.open[t].rows && h in s.history
      ensures h.id < e.id
    {
      assert e in Uncommitted(s);
    }
  }

  /** A consumer has been given the committed rows above the position it started from,
      all of them up to its cursor, once each and in order: no row ever becomes visible
      at or below the cursor without having been served. */
  lemma ConsumerSkipsNothing(extract: seq<int> -> seq<int>, s: State, n: nat)
    requires Reachable(extract, s) && n in s.nodes
    ensures s.nodes[n].received == Between(s.history, s.nodes[n].start, s.nodes[n].cursor)
    ensures forall e :: e in s.history && s.nodes[n].start < e.id <= s.nodes[n].cursor ==> e in s.nodes[n].received
    ensures IdsIncrease(s.nodes[n].received)
  {
    ReachableInv(extract, s);
    var node := s.nodes[n];
    SoundTable(extract, s);
    BetweenMembers(s.history, node.start, node.cursor);
  }

  /** An answer other than 410 is exactly the next rows of the full history, whatever
      records and drops have failed before, holes below the floor included. */
  lemma AnswerIsNextRows(extract: seq<int> -> seq<int>, s: State, after: nat, limit: nat)
    requires Reachable(extract, s) && !BelowFloor(s, after)
    ensures Batch(s, after, limit) == NextRows(s.history, after, limit)
  {
    ReachableInv(extract, s);
    SoundTable(extract, s);
    TrustedPositionsAreResumable(extract, s, after);
    BatchIsNextRows(s, after, limit);
  }

  /** A consumer whose next row is inside the retention window needs no floor check. */
  lemma RecentConsumerIsServed(extract: seq<int> -> seq<int>, s: State, after: nat, limit: nat)
    requires Reachable(extract, s) && WithinRetention(s, after)
    ensures Batch(s, after, limit) == NextRows(s.history, after, limit)
  {
    ReachableInv(extract, s);
    SoundTable(extract, s);
    TrustedPositionsAreResumable(extract, s, after);
    BatchIsNextRows(s, after, limit);
  }

  /** Every committed row above the watermark is still stored, and the watermark never
      moves back, through any further run. */
  lemma FloorIsHonest(extract: seq<int> -> seq<int>, s: State, steps: seq<Step>)
    requires Reachable(extract, s) && Run(extract, s, steps)
    ensures
      var s' := Exec(extract, s, steps);
      && FloorRose(s, s')
      && forall e :: e in s'.history && !AtOrBelowFloor(s', e.id) ==> e.id in s'.log && s'.log[e.id] == e
  {
    ReachableInv(extract, s);
    RunKeepsInv(extract, s, steps);
    LogIsHistory(extract, Exec(extract, s, steps));
  }

  /** The watermark is exactly the highest id that was ever committed in a month that has been
      recorded as retired. */
  lemma FloorIsHighestRetired(extract: seq<int> -> seq<int>, s: State)
    requires Reachable(extract, s)
    ensures s.floor.Some? ==> exists e :: e in s.history && e.id == s.floor.value && e.created.month in s.recorded
    ensures forall e :: e in s.history && e.created.month in s.recorded ==> s.floor.Some? && e.id <= s.floor.value
  {
    hide WriterInv, NodeInv, Reachable;
    ReachableInv(extract, s);
  }

  /** So a consumer that needs no row older than the retention window is never refused. */
  lemma RecentConsumerIsNotRefused(extract: seq<int> -> seq<int>, s: State, after: nat)
    requires Reachable(extract, s) && WithinRetention(s, after)
    ensures !BelowFloor(s, after)
  {
    hide WriterInv, NodeInv, Reachable;
    ReachableInv(extract, s);
  }

  /** A consumer is told to start over exactly if a committed row above its position belongs to
      a month that has been recorded as retired. */
  lemma RefusedIffRetired(extract: seq<int> -> seq<int>, s: State, n: nat)
    requires Reachable(extract, s) && Enabled(s, CheckFloor(n))
    ensures
      var s' := Apply(extract, s, CheckFloor(n));
      && s'.nodes.Keys == s.nodes.Keys && s'.nodes[n] == s.nodes[n].(phase := s'.nodes[n].phase)
      && s'.nodes[n].phase == (if exists e :: e in s.history && s.nodes[n].cursor < e.id && e.created.month in s.recorded
                               then Gone else FloorPassed)
  {
    hide Reachable;
    FloorIsHighestRetired(extract, s);
  }

  ghost predicate CaughtUp(s: State, node: Node) {
    !node.phase.Scanning? && forall e :: e in s.history ==> e.id <= node.cursor
  }

  /** The replica holds exactly the extracted query of every committed fingerprint, up
      to documents that would have no terms. */
  ghost predicate Mirrors(extract: seq<int> -> seq<int>, s: State, node: Node) {
    && (forall d :: d in node.index ==> d in s.corpus && node.index[d] == Document(extract, s, d))
    && (forall d :: d in s.corpus && Document(extract, s, d) != [] ==> d in node.index)
  }

  /** The bootstrap needs no snapshot: whatever was written while the scan ran, and in
      whatever order ids were taken and transactions committed, a replica that has
      tailed the feed to its end mirrors the corpus. */
  lemma CaughtUpReplicaMirrors(extract: seq<int> -> seq<int>, s: State, n: nat)
    requires Reachable(extract, s) && n in s.nodes && CaughtUp(s, s.nodes[n])
    ensures Mirrors(extract, s, s.nodes[n])
  {
    hide Reachable, WriterInv, RetentionInv, NodeInv, CaughtUp, Mirrors;
    ReachableInv(extract, s);
    NothingIsToCome(extract, s, s.nodes[n]);
  }

  lemma NothingIsToCome(extract: seq<int> -> seq<int>, s: State, node: Node)
    requires NodeInv(extract, s, node) && CaughtUp(s, node)
    ensures Mirrors(extract, s, node)
  {
  }

  /** The consumer can tell: an empty answer to a request for at least one row. */
  lemma EmptyAnswerMeansCaughtUp(extract: seq<int> -> seq<int>, s: State, n: nat, limit: nat)
    requires Reachable(extract, s) && n in s.nodes && !s.nodes[n].phase.Scanning?
    requires !BelowFloor(s, s.nodes[n].cursor) && 1 <= limit
    ensures Batch(s, s.nodes[n].cursor, limit) == [] <==> CaughtUp(s, s.nodes[n])
  {
    ReachableInv(extract, s);
    SoundTable(extract, s);
    var h, c := s.history, s.nodes[n].cursor;
    AnswerIsNextRows(extract, s, c, limit);
    UptoSplits(h, c);
    if Upto(h, c) < |h| {
      assert h[Upto(h, c)] in h;
    }
  }

  lemma ReachableStep(extract: seq<int> -> seq<int>, s: State, step: Step)
    requires Reachable(extract, s) && Enabled(s, step) && Assumed(s, step)
    ensures Reachable(extract, Apply(extract, s, step))
  {
    var init, steps :| Init(init) && Run(extract, init, steps) && s == Exec(extract, init, steps);
    RunSnoc(extract, init, steps, step);
  }

  /** One request, floor check and read back to back, meets the assumption on reads. */
  lemma AtomicRequestIsTrusted(extract: seq<int> -> seq<int>, s: State, n: nat, limit: nat)
    requires Enabled(s, CheckFloor(n)) && !BelowFloor(s, s.nodes[n].cursor)
    ensures Enabled(Apply(extract, s, CheckFloor(n)), ReadBatch(n, limit))
    ensures Assumed(Apply(extract, s, CheckFloor(n)), ReadBatch(n, limit))
  {
  }

  ghost function Behind(s: State, c: nat): nat {
    |s.history| - Upto(s.history, c)
  }

  /** One request that is answered with rows brings the replica closer to the end. */
  lemma OnePoll(extract: seq<int> -> seq<int>, s: State, n: nat, limit: nat) returns (s': State)
    requires Reachable(extract, s) && n in s.nodes && s.nodes[n].phase == Tailing
    requires !BelowFloor(s, s.nodes[n].cursor) && Batch(s, s.nodes[n].cursor, limit) != []
    ensures Reachable(extract, s') && s'.corpus == s.corpus && s'.history == s.history && s'.floor == s.floor
    ensures n in s'.nodes && s'.nodes[n].phase == Tailing && s.nodes[n].cursor < s'.nodes[n].cursor
    ensures Behind(s', s'.nodes[n].cursor) < Behind(s, s.nodes[n].cursor)
  {
    AnswerAdvances(extract, s, s.nodes[n].cursor, limit);
    ReachableStep(extract, s, CheckFloor(n));
    AtomicRequestIsTrusted(extract, s, n, limit);
    var s1 := Apply(extract, s, CheckFloor(n));
    ReachableStep(extract, s1, ReadBatch(n, limit));
    assert Batch(s1, s.nodes[n].cursor, limit) == Batch(s, s.nodes[n].cursor, limit);
    s' := Apply(extract, s1, ReadBatch(n, limit));
    hide Reachable;
  }

  /** From any reachable state, a replica that is done scanning and not below the floor
      reaches the end of the feed by polling alone, with any batch size. */
  lemma {:induction false} PollingCatchesUp(extract: seq<int> -> seq<int>, s: State, n: nat, limit: nat)
    returns (s': State)
    requires Reachable(extract, s) && n in s.nodes && s.nodes[n].phase == Tailing
    requires !BelowFloor(s, s.nodes[n].cursor) && 1 <= limit
    ensures Reachable(extract, s') && s'.corpus == s.corpus && s'.history == s.history
    ensures n in s'.nodes && CaughtUp(s', s'.nodes[n]) && Mirrors(extract, s', s'.nodes[n])
    decreases Behind(s, s.nodes[n].cursor)
  {
    hide Reachable, Batch, Mirrors, CaughtUp, Behind;
    EmptyAnswerMeansCaughtUp(extract, s, n, limit);
    if Batch(s, s.nodes[n].cursor, limit) == [] {
      s' := s;
    } else {
      var s1 := OnePoll(extract, s, n, limit);
      s' := PollingCatchesUp(extract, s1, n, limit);
    }
    CaughtUpReplicaMirrors(extract, s', n);
  }

  /** A bootstrap starts from nothing, at the highest id that is stored, or at 0. */
  lemma BootstrapStarts(extract: seq<int> -> seq<int>, s: State, n: nat)
    ensures
      var s' := Apply(extract, s, Bootstrap(n));
      && n in s'.nodes && s'.nodes[n] == Node(Scanning(0), s'.nodes[n].cursor, s'.nodes[n].cursor, [], map[])
      && (forall id :: id in s.log ==> id <= s'.nodes[n].cursor)
      && (if s.log == map[] then s'.nodes[n].cursor == 0 else s'.nodes[n].cursor in s.log)
  {
    assert s.log == map[] <==> s.log.Keys == {};
  }

  ghost function Unscanned(s: State, last: nat): set<nat> {
    set d | d in s.corpus && last < d
  }

  /** Undisturbed, a scan gets to the end of the corpus in chunks of any size. */
  lemma {:induction false} ScanEnds(extract: seq<int> -> seq<int>, s: State, n: nat, limit: nat) returns (s': State)
    requires Reachable(extract, s) && n in s.nodes && s.nodes[n].phase.Scanning? && 1 <= limit
    ensures Reachable(extract, s') && s' == s.(nodes := s'.nodes)
    ensures n in s'.nodes && s'.nodes[n].phase == Tailing && s'.nodes[n].cursor == s.nodes[n].cursor
    decreases |Unscanned(s, s.nodes[n].phase.lastId)|
  {
    hide Reachable, ChunkChanges;
    ReachableStep(extract, s, ScanChunk(n, limit));
    var s1 := Apply(extract, s, ScanChunk(n, limit));
    if s1.nodes[n].phase == Tailing {
      s' := s1;
    } else {
      ChunkShrinks(s, s1, s.nodes[n].phase.lastId, limit);
      s' := ScanEnds(extract, s1, n, limit);
    }
  }

  lemma ChunkShrinks(s: State, s1: State, last: nat, limit: nat)
    requires s1.corpus == s.corpus && Page(s.corpus.Keys, last, limit) != []
    ensures
      var ids := Page(s.corpus.Keys, last, limit);
      |Unscanned(s1, ids[|ids| - 1])| < |Unscanned(s, last)|
  {
    var ids := Page(s.corpus.Keys, last, limit);
    var x := ids[|ids| - 1];
    assert x in ids && x in Unscanned(s, last) && x !in Unscanned(s1, x);
    SubsetIsNoLarger(Unscanned(s1, x), Unscanned(s, last));
  }

  /** From any state whose bootstrap position is accepted, a new replica gets to mirror the
      corpus: bootstrap, scan to the end, poll. */
  lemma BootstrapMirrors(extract: seq<int> -> seq<int>, s: State, n: nat, limit: nat) returns (s': State)
    requires Reachable(extract, s) && !BelowFloor(s, CurrentPosition(s)) && 1 <= limit
    ensures Reachable(extract, s') && s'.corpus == s.corpus && s'.history == s.history
    ensures n in s'.nodes && Mirrors(extract, s', s'.nodes[n])
  {
    hide Reachable, Mirrors, CurrentPosition;
    ReachableStep(extract, s, Bootstrap(n));
    var s1 := ScanEnds(extract, Apply(extract, s, Bootstrap(n)), n, limit);
    s' := PollingCatchesUp(extract, s1, n, limit);
  }

  lemma AnswerAdvances(extract: seq<int> -> seq<int>, s: State, c: nat, limit: nat)
    requires Reachable(extract, s) && !BelowFloor(s, c) && Batch(s, c, limit) != []
    ensures
      var rows := Batch(s, c, limit);
      c < rows[|rows| - 1].id && Behind(s, rows[|rows| - 1].id) < Behind(s, c)
  {
    hide Batch, Reachable, Inv, NextRows, Upto, TableOf, Extracted;
    AnswerIsNextRows(extract, s, c, limit);
    HistoryIncreases(extract, s);
    RowsGetCloser(s.history, c, limit, Batch(s, c, limit));
  }

  lemma HistoryIncreases(extract: seq<int> -> seq<int>, s: State)
    requires Reachable(extract, s)
    ensures IdsIncrease(s.history)
  {
    hide Reachable, Inv, IdsIncrease;
    ReachableInv(extract, s);
    InvIsSound(extract, s);
    SoundTable(extract, s);
  }

  lemma InvIsSound(extract: seq<int> -> seq<int>, s: State)
    requires Inv(extract, s)
    ensures Sound(extract, s)
  {
  }

  lemma RowsGetCloser(h: seq<Entry>, c: nat, limit: nat, rows: seq<Entry>)
    requires IdsIncrease(h) && rows == NextRows(h, c, limit) && rows != []
    ensures
      var last := rows[|rows| - 1].id;
      c < last && |h| - Upto(h, last) < |h| - Upto(h, c)
  {
    hide NextRows, Upto, IdsIncrease;
    NextRowsAdvance(h, c, limit, rows);
  }
}
