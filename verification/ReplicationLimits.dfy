/** Where the protocol's guarantees end: what the two assumptions on runs exclude, and
    concrete runs that go wrong without them. */
module ReplicationLimits {
  import opened Calendar
  import opened Pages
  import opened Wrappers
  import opened Changelog
  import opened ChangelogSafety
  import opened Replication
  import opened ReplicationTheorems

  // ----- the floor ------------------------------------------------------------------

  /** No transaction holds a row older than the retention window. */
  ghost predicate WritersAreBrisk(s: State) {
    forall e :: e in Uncommitted(s) ==> s.clock.month - RETENTION_MONTHS <= e.created.month
  }

  /** Writers that finish within the retention window meet the assumption on records. */
  lemma BriskWritersSuffice(s: State, month: int)
    requires WritersAreBrisk(s) && Enabled(s, RecordFloor(month))
    ensures Assumed(s, RecordFloor(month))
  {
  }

  ghost predicate FloorCovers(s: State) {
    forall e :: e in s.history ==> e.id in s.log || AtOrBelowFloor(s, e.id)
  }

  /** Dropping a partition keeps the floor honest exactly when every row stored in it is
      at or below the floor at that moment: recording before dropping is not enough by
      itself, nothing may commit into the partition in between. */
  lemma DropIsHonestIff(extract: seq<int> -> seq<int>, s: State, month: int)
    requires TableOf(s.history, s.log) && FloorCovers(s) && Enabled(s, DropPartition(month))
    ensures FloorCovers(Apply(extract, s, DropPartition(month)))
            <==> forall id :: id in StoredIn(s, month) ==> AtOrBelowFloor(s, id)
  {
    var s' := Apply(extract, s, DropPartition(month));
    if FloorCovers(s') {
      forall id | id in StoredIn(s, month)
        ensures AtOrBelowFloor(s, id)
      {
        assert s.log[id] in s'.history && id !in s'.log;
      }
    }
    if forall id :: id in StoredIn(s, month) ==> AtOrBelowFloor(s, id) {
      forall e | e in s'.history
        ensures e.id in s'.log || AtOrBelowFloor(s', e.id)
      {
        if e.id in s.log && e.id !in s'.log {
          assert e.id in StoredIn(s, month);
        }
      }
    }
  }

  /** A fresh bootstrap position is accepted by the feed exactly when nothing was ever
      dropped or a row at or above the floor is still stored; a log that has expired
      entirely answers 410, which loses nothing. */
  lemma BootstrapIsAcceptedIff(extract: seq<int> -> seq<int>, s: State)
    requires Reachable(extract, s)
    ensures !BelowFloor(s, CurrentPosition(s)) <==> s.floor.None? || exists id :: id in s.log && s.floor.value <= id
  {
    ReachableInv(extract, s);
    UncommittedOrdered(s);
    if s.floor.Some? && s.log.Keys != {} {
      assert CurrentPosition(s) in s.log.Keys;
    }
  }

  // ----- runs that break an assumption ------------------------------------------------

  /** An empty database in month 0, with partitions for months 0 and 3. */
  function Empty(): State {
    State(Instant(0, 0), 1, 1, map[], [], map[], map[], None, {0, 3}, {}, None, map[])
  }

  /** A run from the empty database, in which the environment keeps to the assumptions if it
      is trusted. */
  ghost predicate Leads(extract: seq<int> -> seq<int>, steps: seq<Step>, s: State, trusted: bool) {
    && Init(Empty()) && Possible(extract, Empty(), steps) && Exec(extract, Empty(), steps) == s
    && (trusted ==> Run(extract, Empty(), steps))
  }

  lemma Then(extract: seq<int> -> seq<int>, steps: seq<Step>, s: State, step: Step, trusted: bool)
    requires Leads(extract, steps, s, trusted) && Enabled(s, step) && (trusted ==> Assumed(s, step))
    ensures Leads(extract, steps + [step], Apply(extract, s, step), trusted)
  {
    PossibleSnoc(extract, Empty(), steps, step);
    if trusted {
      RunSnoc(extract, Empty(), steps, step);
    }
  }

  lemma TrustedIsReachable(extract: seq<int> -> seq<int>, steps: seq<Step>, s: State)
    requires Leads(extract, steps, s, true)
    ensures Reachable(extract, s)
  {
  }

  lemma {:induction false} PossibleSnoc(extract: seq<int> -> seq<int>, s: State, steps: seq<Step>, step: Step)
    requires Possible(extract, s, steps) && Enabled(Exec(extract, s, steps), step)
    ensures Possible(extract, s, steps + [step])
    ensures Exec(extract, s, steps + [step]) == Apply(extract, Exec(extract, s, steps), step)
    decreases |steps|
  {
    if steps == [] {
      assert [step][1..] == [];
    } else {
      assert (steps + [step])[1..] == steps[1..] + [step];
      PossibleSnoc(extract, Apply(extract, s, steps[0]), steps[1..], step);
    }
  }

  /** A transaction inserts one fingerprint and its trigger runs. */
  lemma RowWritten(extract: seq<int> -> seq<int>, steps: seq<Step>, s: State, hashes: seq<int>, trusted: bool)
    returns (steps': seq<Step>, s': State)
    requires Leads(extract, steps, s, trusted) && s.open == map[] && s.lock == None && s.clock.month in s.partitions
    ensures Leads(extract, steps', s', trusted)
    ensures
      var e := Entry(s.nextEntry, s.nextFingerprint, extract(hashes), s.clock);
      s' == s.(open := map[1 := Tx(map[s.nextFingerprint := hashes], [], [e])], lock := Some(1),
               nextEntry := s.nextEntry + 1, nextFingerprint := s.nextFingerprint + 1)
  {
    var id := s.nextFingerprint;
    var s1 := s.(open := map[1 := EmptyTx()]);
    Then(extract, steps, s, Begin(1), trusted);
    var s2 := s1.(open := map[1 := Tx(map[id := hashes], [id], [])], nextFingerprint := id + 1);
    assert [] + [id] == [id];
    assert Apply(extract, s1, Insert(1, hashes)) == s2;
    Then(extract, steps + [Begin(1)], s1, Insert(1, hashes), trusted);
    steps', s' := TriggerRuns(extract, steps + [Begin(1)] + [Insert(1, hashes)], s2, hashes, id, trusted);
  }

  lemma TriggerRuns(extract: seq<int> -> seq<int>, steps: seq<Step>, s: State, hashes: seq<int>, id: nat, trusted: bool)
    returns (steps': seq<Step>, s': State)
    requires Leads(extract, steps, s, trusted) && s.open == map[1 := Tx(map[id := hashes], [id], [])]
    requires s.lock == None && s.clock.month in s.partitions
    ensures Leads(extract, steps', s', trusted)
    ensures s' == s.(open := map[1 := Tx(map[id := hashes], [], [Entry(s.nextEntry, id, extract(hashes), s.clock)])],
                     lock := Some(1), nextEntry := s.nextEntry + 1)
  {
    var s1 := s.(lock := Some(1));
    assert Apply(extract, s, Lock(1)) == s1;
    Then(extract, steps, s, Lock(1), trusted);
    var e := Entry(s.nextEntry, id, extract(hashes), s.clock);
    assert [id][1..] == [] && [] + [e] == [e];
    s' := Apply(extract, s1, Append(1));
    Then(extract, steps + [Lock(1)], s1, Append(1), trusted);
    steps' := steps + [Lock(1)] + [Append(1)];
  }

  lemma RowCommitted(extract: seq<int> -> seq<int>, steps: seq<Step>, s: State, hashes: seq<int>, fingerprint: nat, e: Entry,
                     trusted: bool)
    returns (s': State)
    requires Leads(extract, steps, s, trusted)
    requires s.open == map[1 := Tx(map[fingerprint := hashes], [], [e])] && s.lock == Some(1)
    ensures Leads(extract, steps + [Commit(1)], s', trusted)
    ensures s' == s.(open := map[], lock := None, corpus := s.corpus[fingerprint := hashes],
                     history := s.history + [e], log := s.log[e.id := e])
  {
    s' := Apply(extract, s, Commit(1));
    Then(extract, steps, s, Commit(1), trusted);
    assert [e][..0] == [];
    assert ById([e]) == map[e.id := e];
    assert s.corpus + map[fingerprint := hashes] == s.corpus[fingerprint := hashes];
    assert s.log + map[e.id := e] == s.log[e.id := e];
    assert s.open - {1} == map[];
  }

  /** Month 0 is recorded in month 3, with nothing committed in it. */
  lemma RecordsNothing(extract: seq<int> -> seq<int>, steps: seq<Step>, s: State) returns (s': State)
    requires Leads(extract, steps, s, false) && s.log == map[] && s.clock == Instant(0, 0) && 0 in s.partitions
    ensures Leads(extract, steps + [Tick(Instant(3, 0))] + [RecordFloor(0)], s', false)
    ensures s' == s.(clock := Instant(3, 0), recorded := s.recorded + {0})
  {
    var s1 := s.(clock := Instant(3, 0));
    assert Apply(extract, s, Tick(Instant(3, 0))) == s1;
    Then(extract, steps, s, Tick(Instant(3, 0)), false);
    assert StoredIn(s1, 0) == {};
    s' := Apply(extract, s1, RecordFloor(0));
    Then(extract, steps + [Tick(Instant(3, 0))], s1, RecordFloor(0), false);
  }

  /** Without brisk writers: a row written in month 0 is committed in month 3, after the
      watermark statement of month 0 found nothing, and goes with the partition. The
      feed then answers position 0 with nothing, for ever. */
  lemma StaleWriterLosesARow(extract: seq<int> -> seq<int>) returns (steps: seq<Step>, s: State)
    ensures Leads(extract, steps, s, false)
    ensures |s.history| == 1 && !BelowFloor(s, 0) && forall limit: nat :: Batch(s, 0, limit) == []
  {
    hide Leads;
    NothingYet(extract, false);
    var steps1, s1 := RowWritten(extract, [], Empty(), [1], false);
    var e := Entry(1, 1, extract([1]), Instant(0, 0));
    var s2 := RecordsNothing(extract, steps1, s1);
    var steps2 := steps1 + [Tick(Instant(3, 0))] + [RecordFloor(0)];
    var s3 := RowCommitted(extract, steps2, s2, [1], 1, e, false);
    s := Apply(extract, s3, DropPartition(0));
    Then(extract, steps2 + [Commit(1)], s3, DropPartition(0), false);
    steps := steps2 + [Commit(1)] + [DropPartition(0)];
    assert s.log == map[];
    forall limit: nat
      ensures Batch(s, 0, limit) == []
    {
      assert Page({}, 0, limit) == [];
    }
  }

  // ----- the two transactions of a feed request -----------------------------------------

  /** Month 0 is recorded in month 3, one committed row in it. */
  lemma RecordsOneRow(extract: seq<int> -> seq<int>, steps: seq<Step>, s: State, e: Entry, trusted: bool)
    returns (steps': seq<Step>, s': State)
    requires Leads(extract, steps, s, trusted) && s.log == map[e.id := e] && e.created.month == 0 && s.floor == None
    requires s.clock == Instant(0, 0) && 0 in s.partitions && s.open == map[]
    ensures Leads(extract, steps', s', trusted)
    ensures s' == s.(clock := Instant(3, 0), recorded := s.recorded + {0}, floor := Some(e.id))
  {
    var s1 := s.(clock := Instant(3, 0));
    assert Apply(extract, s, Tick(Instant(3, 0))) == s1;
    Then(extract, steps, s, Tick(Instant(3, 0)), trusted);
    assert StoredIn(s1, 0) == {e.id};
    s' := s1.(recorded := s.recorded + {0}, floor := Some(e.id));
    assert Apply(extract, s1, RecordFloor(0)) == s';
    Then(extract, steps + [Tick(Instant(3, 0))], s1, RecordFloor(0), trusted);
    steps' := steps + [Tick(Instant(3, 0))] + [RecordFloor(0)];
  }

  /** Then its partition is dropped. */
  lemma RetiresOneRow(extract: seq<int> -> seq<int>, steps: seq<Step>, s: State, e: Entry, trusted: bool)
    returns (steps': seq<Step>, s': State)
    requires Leads(extract, steps, s, trusted) && s.log == map[e.id := e] && e.created.month == 0 && s.floor == None
    requires s.clock == Instant(0, 0) && 0 in s.partitions && s.open == map[]
    ensures Leads(extract, steps', s', trusted)
    ensures s' == s.(clock := Instant(3, 0), recorded := s.recorded + {0}, floor := Some(e.id), log := map[],
                     partitions := s.partitions - {0})
  {
    hide Leads;
    var steps1, s1 := RecordsOneRow(extract, steps, s, e, trusted);
    s' := Apply(extract, s1, DropPartition(0));
    Then(extract, steps1, s1, DropPartition(0), trusted);
    steps' := steps1 + [DropPartition(0)];
    assert s'.log == map[];
  }

  lemma NothingYet(extract: seq<int> -> seq<int>, trusted: bool)
    ensures Leads(extract, [], Empty(), trusted)
  {
  }

  /** A replica bootstraps from an empty database and sends a request, which passes the
      floor check. */
  lemma EmptyBootstrap(extract: seq<int> -> seq<int>) returns (steps: seq<Step>, s: State)
    ensures Leads(extract, steps, s, false) && s == Empty().(nodes := map[0 := Node(FloorPassed, 0, 0, [], map[])])
  {
    hide Leads;
    var s0 := Empty();
    NothingYet(extract, false);
    var s1 := s0.(nodes := map[0 := Node(Scanning(0), 0, 0, [], map[])]);
    assert Apply(extract, s0, Bootstrap(0)) == s1;
    Then(extract, [], s0, Bootstrap(0), false);
    assert Page({}, 0, 1) == [];
    var s2 := s0.(nodes := map[0 := Node(Tailing, 0, 0, [], map[])]);
    assert Apply(extract, s1, ScanChunk(0, 1)) == s2;
    Then(extract, [] + [Bootstrap(0)], s1, ScanChunk(0, 1), false);
    s := Apply(extract, s2, CheckFloor(0));
    Then(extract, [] + [Bootstrap(0)] + [ScanChunk(0, 1)], s2, CheckFloor(0), false);
    steps := [] + [Bootstrap(0)] + [ScanChunk(0, 1)] + [CheckFloor(0)];
  }

  lemma ReadsOneRow(extract: seq<int> -> seq<int>, steps: seq<Step>, s: State, n: nat, e: Entry) returns (s': State)
    requires Leads(extract, steps, s, false) && n in s.nodes && s.nodes[n].phase == FloorPassed
    requires s.log == map[e.id := e] && s.nodes[n].cursor < e.id
    ensures Leads(extract, steps + [ReadBatch(n, 5)], s', false)
    ensures s' == s.(nodes := s.nodes[n := Served(s.nodes[n], [e])])
  {
    var c := s.nodes[n].cursor;
    assert IsPage({e.id}, c, 5, [e.id]);
    PageIsUnique({e.id}, c, 5, Page({e.id}, c, 5), [e.id]);
    assert s.log.Keys == {e.id};
    assert Batch(s, c, 5) == [e];
    s' := Apply(extract, s, ReadBatch(n, 5));
    Then(extract, steps, s, ReadBatch(n, 5), false);
  }

  /** When retention overtakes a consumer between the floor check and the read of one
      request, the consumer ends up caught up, never told 410, and without the row. */
  lemma SplitRequestSkipsARow(extract: seq<int> -> seq<int>) returns (steps: seq<Step>, s: State)
    ensures Leads(extract, steps, s, false)
    ensures 0 in s.nodes && CaughtUp(s, s.nodes[0]) && !BelowFloor(s, s.nodes[0].cursor)
    ensures exists e :: e in s.history && s.nodes[0].start < e.id <= s.nodes[0].cursor && e !in s.nodes[0].received
  {
    hide Leads;
    var steps1, s1 := EmptyBootstrap(extract);
    var e1, e2 := Entry(1, 1, extract([1]), Instant(0, 0)), Entry(2, 2, extract([2]), Instant(3, 0));
    var steps2, s2 := RowWritten(extract, steps1, s1, [1], false);
    var s3 := RowCommitted(extract, steps2, s2, [1], 1, e1, false);
    assert s3.log == map[1 := e1];
    var steps4, s4 := RetiresOneRow(extract, steps2 + [Commit(1)], s3, e1, false);
    steps, s := SkipsAhead(extract, steps4, s4, e1, e2);
    assert e1 in s.history && e1 !in s.nodes[0].received;
  }

  lemma SkipsAhead(extract: seq<int> -> seq<int>, steps: seq<Step>, s: State, e1: Entry, e2: Entry) returns (steps': seq<Step>, s': State)
    requires Leads(extract, steps, s, false) && s.open == map[] && s.lock == None && s.clock == Instant(3, 0) && 3 in s.partitions
    requires s.nodes == map[0 := Node(FloorPassed, 0, 0, [], map[])] && s.log == map[] && s.history == [e1] && s.floor == Some(1)
    requires e1.id == 1 && s.nextEntry == 2 && e2 == Entry(2, s.nextFingerprint, extract([2]), s.clock)
    ensures Leads(extract, steps', s', false)
    ensures s'.history == [e1, e2] && s'.floor == Some(1)
    ensures s'.nodes == map[0 := Served(Node(FloorPassed, 0, 0, [], map[]), [e2])]
    ensures s'.nodes[0].received == [e2]
  {
    hide Leads;
    var steps1, s1 := RowWritten(extract, steps, s, [2], false);
    var s2 := RowCommitted(extract, steps1, s1, [2], s.nextFingerprint, e2, false);
    s' := ReadsOneRow(extract, steps1 + [Commit(1)], s2, 0, e2);
    steps' := steps1 + [Commit(1)] + [ReadBatch(0, 5)];
  }

  // ----- where the floor is too high ------------------------------------------------------

  /** One row is written and committed in month 0, with nothing else going on. */
  lemma OneRow(extract: seq<int> -> seq<int>) returns (steps: seq<Step>, s: State, e: Entry)
    ensures Leads(extract, steps, s, true) && e == Entry(1, 1, extract([1]), Instant(0, 0))
    ensures s == Empty().(corpus := map[1 := [1]], history := [e], log := map[1 := e], nextEntry := 2, nextFingerprint := 2)
  {
    hide Leads;
    NothingYet(extract, true);
    var steps1, s1 := RowWritten(extract, [], Empty(), [1], true);
    e := Entry(1, 1, extract([1]), Instant(0, 0));
    s := RowCommitted(extract, steps1, s1, [1], 1, e, true);
    steps := steps1 + [Commit(1)];
    assert [] + [e] == [e];
  }

  /** A log that has expired entirely: a fresh bootstrap announces position 0 and is answered
      410, although it has missed nothing. */
  lemma ExpiredLogRefusesBootstrap(extract: seq<int> -> seq<int>) returns (s: State)
    ensures Reachable(extract, s) && BelowFloor(s, CurrentPosition(s))
  {
    hide Leads, Reachable;
    var steps, s0, e := OneRow(extract);
    var steps1, s1 := RetiresOneRow(extract, steps, s0, e, true);
    TrustedIsReachable(extract, steps1, s1);
    s := s1;
  }

  /** A partition whose drop failed after it was recorded: position 0 misses nothing and is
      answered 410 all the same. */
  lemma RecordedButNotDropped(extract: seq<int> -> seq<int>) returns (s: State)
    ensures Reachable(extract, s) && BelowFloor(s, 0) && Resumable(s, 0)
    ensures s.history != [] && forall limit: nat :: Batch(s, 0, limit) == NextRows(s.history, 0, limit)
  {
    hide Leads, Reachable, Inv, Batch, NextRows;
    var steps, s0, e := OneRow(extract);
    var steps1, s1 := RecordsOneRow(extract, steps, s0, e, true);
    TrustedIsReachable(extract, steps1, s1);
    s := s1;
    assert IdsIncrease(s.history) && TableOf(s.history, s.log);
    ResumableIffExact(s, 0);
  }
}
