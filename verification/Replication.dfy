/** Replicas under any interleaving: what the feed answers, what a consumer has been
    given, and what its index holds once it has caught up. */
module Replication {
  import opened Hashes
  import opened Pages
  import opened Changelog
  import opened ChangelogSafety

  // ----- an ordered history and the table that is left of it --------------------------

  ghost predicate IdsIncrease(h: seq<Entry>) {
    forall i, j :: 0 <= i < j < |h| ==> h[i].id < h[j].id
  }

  /** The table holds rows of the history, each under its own id. */
  ghost predicate TableOf(h: seq<Entry>, log: map<nat, Entry>) {
    && (forall id :: id in log ==> log[id].id == id && log[id] in h)
    && (forall i :: 0 <= i < |h| && h[i].id in log ==> log[h[i].id] == h[i])
  }

  /** No row of the history above the position is missing from the table. */
  ghost predicate Complete(h: seq<Entry>, log: map<nat, Entry>, after: nat) {
    forall i :: 0 <= i < |h| && after < h[i].id ==> h[i].id in log
  }

  /** How many rows of an ordered history are at or below a position. */
  function Upto(h: seq<Entry>, c: nat): (k: nat)
    ensures k <= |h|
  {
    if h == [] then 0
    else if h[|h| - 1].id <= c then |h|
    else Upto(h[..|h| - 1], c)
  }

  lemma {:induction false} UptoSplits(h: seq<Entry>, c: nat)
    requires IdsIncrease(h)
    ensures forall i :: 0 <= i < |h| ==> (i < Upto(h, c) <==> h[i].id <= c)
  {
    if h != [] && c < h[|h| - 1].id {
      UptoSplits(h[..|h| - 1], c);
    }
  }

  lemma UptoIs(h: seq<Entry>, c: nat, k: nat)
    requires IdsIncrease(h) && k <= |h|
    requires 0 < k ==> h[k - 1].id <= c
    requires k < |h| ==> c < h[k].id
    ensures Upto(h, c) == k
  {
    UptoSplits(h, c);
  }

  function Min(a: nat, b: nat): nat {
    if a <= b then a else b
  }

  /** The next `limit` rows of the full history after a position. */
  function NextRows(h: seq<Entry>, after: nat, limit: nat): seq<Entry> {
    h[Upto(h, after)..Min(Upto(h, after) + limit, |h|)]
  }

  function Ids(rows: seq<Entry>): (ids: seq<nat>)
    ensures |ids| == |rows| && forall i :: 0 <= i < |rows| ==> ids[i] == rows[i].id
  {
    seq(|rows|, i requires 0 <= i < |rows| => rows[i].id)
  }

  /** A row above the position is among the next rows, or they are full and end below it. */
  lemma RowIsNextOrLater(h: seq<Entry>, after: nat, limit: nat, j: nat)
    requires IdsIncrease(h) && j < |h| && after < h[j].id
    ensures
      var rows := NextRows(h, after, limit);
      h[j] in rows || (|rows| == limit && forall r :: r in rows ==> r.id < h[j].id)
  {
    UptoSplits(h, after);
    var k, rows := Upto(h, after), NextRows(h, after, limit);
    if j - k < |rows| {
      assert rows[j - k] == h[j];
    }
  }

  lemma NextRowsFormPage(h: seq<Entry>, log: map<nat, Entry>, after: nat, limit: nat)
    requires IdsIncrease(h) && TableOf(h, log) && Complete(h, log, after)
    ensures IsPage(log.Keys, after, limit, Ids(NextRows(h, after, limit)))
  {
    NextRowsIncrease(h, log, after, limit);
    hide Ids, NextRows, Increasing, Complete, IdsIncrease, TableOf;
    var ids := Ids(NextRows(h, after, limit));
    forall x | x in log.Keys && after < x
      ensures x in ids || (|ids| == limit && forall y :: y in ids ==> y < x)
    {
      RowIsListedOrLater(h, log, after, limit, x);
    }
  }

  lemma NextRowsIncrease(h: seq<Entry>, log: map<nat, Entry>, after: nat, limit: nat)
    requires IdsIncrease(h) && Complete(h, log, after)
    ensures
      var ids := Ids(NextRows(h, after, limit));
      Increasing(ids) && |ids| <= limit && forall x :: x in ids ==> x in log && after < x
  {
    UptoSplits(h, after);
    hide Upto;
    var k, rows := Upto(h, after), NextRows(h, after, limit);
    forall i | 0 <= i < |rows|
      ensures rows[i] == h[k + i] && rows[i].id in log && after < rows[i].id
    {
    }
  }

  lemma RowIsListedOrLater(h: seq<Entry>, log: map<nat, Entry>, after: nat, limit: nat, x: nat)
    requires IdsIncrease(h) && TableOf(h, log) && x in log && after < x
    ensures
      var ids := Ids(NextRows(h, after, limit));
      x in ids || (|ids| == limit && forall y :: y in ids ==> y < x)
  {
    var rows := NextRows(h, after, limit);
    var j :| 0 <= j < |h| && h[j] == log[x];
    RowIsNextOrLater(h, after, limit, j);
    hide NextRows;
    if log[x] in rows {
      var i :| 0 <= i < |rows| && rows[i] == log[x];
      assert Ids(rows)[i] == x;
    }
  }

  lemma PageOfComplete(h: seq<Entry>, log: map<nat, Entry>, after: nat, limit: nat)
    requires IdsIncrease(h) && TableOf(h, log) && Complete(h, log, after)
    ensures Page(log.Keys, after, limit) == Ids(NextRows(h, after, limit))
  {
    NextRowsFormPage(h, log, after, limit);
    PageIsUnique(log.Keys, after, limit, Page(log.Keys, after, limit), Ids(NextRows(h, after, limit)));
  }

  lemma {:induction false} BetweenIsSlice(h: seq<Entry>, lo: nat, hi: nat)
    requires IdsIncrease(h) && lo <= hi
    ensures Upto(h, lo) <= Upto(h, hi)
    ensures Between(h, lo, hi) == h[Upto(h, lo)..Upto(h, hi)]
  {
    if h != [] {
      var init, last := h[..|h| - 1], h[|h| - 1];
      BetweenIsSlice(init, lo, hi);
      SliceSnoc(init, last, lo, hi);
      assert init + [last] == h;
    }
  }

  lemma SliceSnoc(init: seq<Entry>, last: Entry, lo: nat, hi: nat)
    requires IdsIncrease(init + [last]) && lo <= hi && Upto(init, lo) <= Upto(init, hi)
    requires Between(init, lo, hi) == init[Upto(init, lo)..Upto(init, hi)]
    ensures
      var h := init + [last];
      Upto(h, lo) <= Upto(h, hi) && Between(h, lo, hi) == h[Upto(h, lo)..Upto(h, hi)]
  {
    hide Upto, Between, IdsIncrease;
    var h, a, b := init + [last], Upto(init, lo), Upto(init, hi);
    OneMore(init, last, lo, hi);
    if last.id <= lo {
      AllUpto(init, last, lo);
      AllUpto(init, last, hi);
      assert init[a..b] == [] && h[|h|..|h|] == [];
    } else if last.id <= hi {
      AllUpto(init, last, hi);
      assert init[a..b] + [last] == h[a..|h|];
    } else {
      assert init[a..b] + [] == h[a..b];
    }
  }

  lemma OneMore(init: seq<Entry>, last: Entry, lo: nat, hi: nat)
    ensures
      var h := init + [last];
      && Upto(h, lo) == (if last.id <= lo then |h| else Upto(init, lo))
      && Upto(h, hi) == (if last.id <= hi then |h| else Upto(init, hi))
      && Between(h, lo, hi) == Between(init, lo, hi) + if lo < last.id <= hi then [last] else []
  {
    var h := init + [last];
    assert h[..|h| - 1] == init && h[|h| - 1] == last;
  }

  lemma AllUpto(init: seq<Entry>, last: Entry, c: nat)
    requires IdsIncrease(init + [last]) && last.id <= c
    ensures Upto(init, c) == |init|
  {
    if init != [] {
      assert (init + [last])[|init| - 1].id < (init + [last])[|init|].id;
    }
  }

  lemma {:induction false} BetweenIgnoresLater(h: seq<Entry>, later: seq<Entry>, lo: nat, hi: nat)
    requires forall e :: e in later ==> hi < e.id
    ensures Between(h + later, lo, hi) == Between(h, lo, hi)
  {
    if later == [] {
      assert h + later == h;
    } else {
      var init := later[..|later| - 1];
      BetweenIgnoresLater(h, init, lo, hi);
      assert (h + later)[..|h + later| - 1] == h + init;
      assert later[|later| - 1] in later;
    }
  }

  /** Taking the next rows extends what lies between the start and the cursor. */
  lemma BatchExtends(h: seq<Entry>, start: nat, cursor: nat, limit: nat, rows: seq<Entry>)
    requires IdsIncrease(h) && start <= cursor
    requires rows == NextRows(h, cursor, limit) && rows != []
    ensures
      var cursor' := rows[|rows| - 1].id;
      && cursor < cursor'
      && Between(h, start, cursor) + rows == Between(h, start, cursor')
  {
    NextRowsAdvance(h, cursor, limit, rows);
    BetweenIsSlice(h, start, cursor);
    BetweenIsSlice(h, start, rows[|rows| - 1].id);
  }

  lemma BatchMembers(h: seq<Entry>, cursor: nat, limit: nat, rows: seq<Entry>)
    requires IdsIncrease(h)
    requires rows == NextRows(h, cursor, limit) && rows != []
    ensures forall e :: e in h && cursor < e.id <= rows[|rows| - 1].id ==> e in rows
    ensures forall e :: e in rows ==> e in h && cursor < e.id
  {
    var k, last := Upto(h, cursor), |rows| - 1;
    UptoSplits(h, cursor);
    assert rows[last] == h[k + last];
    forall e | e in h && cursor < e.id <= rows[last].id
      ensures e in rows
    {
      var i :| 0 <= i < |h| && h[i] == e;
      assert rows[i - k] == e;
    }
  }

  lemma BetweenMembers(h: seq<Entry>, lo: nat, hi: nat)
    requires IdsIncrease(h) && lo <= hi
    ensures IdsIncrease(Between(h, lo, hi))
    ensures forall e :: e in Between(h, lo, hi) <==> e in h && lo < e.id <= hi
  {
    BetweenIsSlice(h, lo, hi);
    UptoSplits(h, lo);
    UptoSplits(h, hi);
    SliceMembers(h, lo, hi, Upto(h, lo), Upto(h, hi));
  }

  lemma SliceMembers(h: seq<Entry>, lo: nat, hi: nat, i0: nat, i1: nat)
    requires IdsIncrease(h) && i0 <= i1 <= |h|
    requires forall i :: 0 <= i < |h| ==> (i < i0 <==> h[i].id <= lo)
    requires forall i :: 0 <= i < |h| ==> (i < i1 <==> h[i].id <= hi)
    ensures IdsIncrease(h[i0..i1])
    ensures forall e :: e in h[i0..i1] <==> e in h && lo < e.id <= hi
  {
    var rows := h[i0..i1];
    forall e | e in rows
      ensures e in h && lo < e.id <= hi
    {
      var i :| 0 <= i < |rows| && rows[i] == e;
      assert h[i0 + i] == e;
    }
    forall e | e in h && lo < e.id <= hi
      ensures e in rows
    {
      var i :| 0 <= i < |h| && h[i] == e;
      assert rows[i - i0] == e;
    }
  }

  lemma NextRowsAdvance(h: seq<Entry>, c: nat, limit: nat, rows: seq<Entry>)
    requires IdsIncrease(h) && rows == NextRows(h, c, limit) && rows != []
    ensures c < rows[|rows| - 1].id && Upto(h, rows[|rows| - 1].id) == Upto(h, c) + |rows|
  {
    var k := Upto(h, c);
    UptoSplits(h, c);
    assert rows[|rows| - 1] == h[k + |rows| - 1];
    UptoIs(h, rows[|rows| - 1].id, k + |rows|);
  }

  // ----- the feed's answer -------------------------------------------------------------

  /** No committed row above the position is gone. */
  ghost predicate Resumable(s: State, after: nat) {
    Complete(s.history, s.log, after)
  }

  ghost predicate Sound(extract: seq<int> -> seq<int>, s: State) {
    WriterInv(extract, s) && RetentionInv(s)
  }

  lemma SoundTable(extract: seq<int> -> seq<int>, s: State)
    requires Sound(extract, s)
    ensures IdsIncrease(s.history) && TableOf(s.history, s.log)
    ensures Extracted(extract, s, s.history)
    ensures forall id :: id in s.corpus ==> 0 < id
  {
    UncommittedOrdered(s);
    LogIsHistory(extract, s);
  }

  lemma NextRowsStored(h: seq<Entry>, log: map<nat, Entry>, after: nat, limit: nat)
    requires IdsIncrease(h) && TableOf(h, log) && Complete(h, log, after)
    ensures forall r :: r in NextRows(h, after, limit) ==> r.id in log && log[r.id] == r
  {
    UptoSplits(h, after);
    var k, rows := Upto(h, after), NextRows(h, after, limit);
    assert forall i :: 0 <= i < |rows| ==> rows[i] == h[k + i];
  }

  lemma BatchIsNextRows(s: State, after: nat, limit: nat)
    requires IdsIncrease(s.history) && TableOf(s.history, s.log) && Resumable(s, after)
    ensures Batch(s, after, limit) == NextRows(s.history, after, limit)
  {
    var rows := NextRows(s.history, after, limit);
    PageOfComplete(s.history, s.log, after, limit);
    NextRowsStored(s.history, s.log, after, limit);
    assert |Batch(s, after, limit)| == |rows|;
    assert forall i :: 0 <= i < |rows| ==> rows[i] in rows;
  }

  lemma BatchIsStored(s: State, after: nat, limit: nat)
    requires TableOf(s.history, s.log)
    ensures forall r :: r in Batch(s, after, limit) ==> r.id in s.log
  {
    var ids := Page(s.log.Keys, after, limit);
    assert forall i :: 0 <= i < |ids| ==> ids[i] in ids;
  }

  /** A position is resumable exactly when every answer it can get is the next rows of
      the full history: one missing row above it shows in some answer. */
  lemma ResumableIffExact(s: State, after: nat)
    requires IdsIncrease(s.history) && TableOf(s.history, s.log)
    ensures Resumable(s, after) <==> forall limit: nat :: Batch(s, after, limit) == NextRows(s.history, after, limit)
  {
    var h := s.history;
    if Resumable(s, after) {
      forall limit: nat
        ensures Batch(s, after, limit) == NextRows(h, after, limit)
      {
        BatchIsNextRows(s, after, limit);
      }
    } else {
      var i :| 0 <= i < |h| && after < h[i].id && h[i].id !in s.log;
      UptoSplits(h, after);
      var k := Upto(h, after);
      assert NextRows(h, after, |h|)[i - k] == h[i];
      BatchIsStored(s, after, |h|);
    }
  }

  /** Both grounds for trusting an answer: the position is not below the floor, or the
      consumer is less than the retention window behind. */
  lemma TrustedPositionsAreResumable(extract: seq<int> -> seq<int>, s: State, after: nat)
    requires Sound(extract, s)
    requires !BelowFloor(s, after) || WithinRetention(s, after)
    ensures Resumable(s, after)
  {
    assert forall i :: 0 <= i < |s.history| ==> s.history[i] in s.history;
  }

  // ----- what a consumer makes of it -----------------------------------------------------

  lemma {:induction false} AbsorbHolds(extract: seq<int> -> seq<int>, s: State, index: map<nat, seq<int>>, rows: seq<Entry>)
    requires Extracted(extract, s, rows)
    requires forall d :: d in index ==> d in s.corpus && index[d] == Document(extract, s, d)
    ensures forall d :: d in Absorb(index, rows) ==> d in s.corpus && Absorb(index, rows)[d] == Document(extract, s, d)
    ensures forall d :: d in Absorb(index, rows) <==> d in index || exists e :: e in rows && e.fingerprint == d
  {
    if rows != [] {
      var init, last := rows[..|rows| - 1], rows[|rows| - 1];
      assert rows == init + [last];
      AbsorbHolds(extract, s, index, init);
      assert last in rows;
      assert forall e :: e in rows ==> e in init || e == last;
    }
  }

  // ----- one step -----------------------------------------------------------------------

  /** Every entry of the history carries what its fingerprint extracts to. */
  ghost predicate Extracted(extract: seq<int> -> seq<int>, s: State, rows: seq<Entry>) {
    forall e :: e in rows ==> e.fingerprint in s.corpus && e.query == extract(s.corpus[e.fingerprint])
  }

  lemma ReadKeepsNodeInv(extract: seq<int> -> seq<int>, s: State, node: Node, limit: nat, rows: seq<Entry>)
    requires IdsIncrease(s.history) && Extracted(extract, s, s.history)
    requires NodeInv(extract, s, node) && node.phase == FloorPassed
    requires rows == NextRows(s.history, node.cursor, limit)
    ensures NodeInv(extract, s, Served(node, rows))
  {
    if rows == [] {
      assert Served(node, rows) == node.(phase := Tailing) by {
        assert node.received + rows == node.received;
      }
      NodeFrame(extract, s, s, node, Tailing);
    } else {
      BatchExtends(s.history, node.start, node.cursor, limit, rows);
      BatchMembers(s.history, node.cursor, limit, rows);
      AbsorbHolds(extract, s, node.index, rows);
      assert rows[|rows| - 1] in rows;
      ServedCovers(extract, s, node, rows);
    }
  }

  lemma ServedCovers(extract: seq<int> -> seq<int>, s: State, node: Node, rows: seq<Entry>)
    requires NodeInv(extract, s, node) && node.phase == FloorPassed && rows != []
    requires forall e :: e in s.history && node.cursor < e.id <= rows[|rows| - 1].id ==> e in rows
    requires forall e :: e in rows ==> e.fingerprint in Absorb(node.index, rows)
    requires forall d :: d in node.index ==> d in Absorb(node.index, rows)
    ensures
      var node' := Served(node, rows);
      forall d :: d in s.corpus ==> d in node'.index || Document(extract, s, d) == [] || StillToCome(s, node', d)
  {
    hide Between, Absorb, ToUnsigned;
    var node' := Served(node, rows);
    forall d | d in s.corpus && d !in node'.index && Document(extract, s, d) != []
      ensures StillToCome(s, node', d)
    {
      assert StillToCome(s, node, d);
      var e :| e in s.history && e.fingerprint == d && node.cursor < e.id;
      assert e !in rows;
    }
  }

  lemma ScanKeepsNodeInv(extract: seq<int> -> seq<int>, s: State, node: Node, limit: nat, node': Node)
    requires NodeInv(extract, s, node) && node.phase.Scanning? && 1 <= limit
    requires node' == Scanned(extract, s.corpus, node, Page(s.corpus.Keys, node.phase.lastId, limit))
    ensures NodeInv(extract, s, node')
  {
    var ids := Page(s.corpus.Keys, node.phase.lastId, limit);
    if ids == [] {
      forall d | d in s.corpus
        ensures d <= node.phase.lastId
      {
      }
    } else {
      var last := ids[|ids| - 1];
      assert last in ids;
      forall d | d in s.corpus && node.phase.lastId < d <= last
        ensures d in ids
      {
      }
      ChunkExtends(extract, s, node, node', ids);
    }
  }

  lemma ChunkExtends(extract: seq<int> -> seq<int>, s: State, node: Node, node': Node, ids: seq<nat>)
    requires NodeInv(extract, s, node) && node.phase.Scanning? && ids != []
    requires node' == Scanned(extract, s.corpus, node, ids)
    requires forall d :: d in s.corpus && node.phase.lastId < d <= ids[|ids| - 1] ==> d in ids
    ensures NodeInv(extract, s, node')
  {
    forall d | d in s.corpus && d !in node'.index && Document(extract, s, d) != []
      ensures StillToCome(s, node', d)
    {
      assert StillToCome(s, node, d);
    }
  }

  lemma BootstrapNodeInv(extract: seq<int> -> seq<int>, s: State, c: nat)
    requires IdsIncrease(s.history)
    requires c == 0 || exists e :: e in s.history && e.id == c
    requires forall id :: id in s.corpus ==> 0 < id
    ensures NodeInv(extract, s, Node(Scanning(0), c, c, [], map[]))
  {
    BetweenIsSlice(s.history, c, c);
  }

  lemma PositionIsCommitted(s: State)
    requires TableOf(s.history, s.log)
    ensures CurrentPosition(s) == 0 || exists e :: e in s.history && e.id == CurrentPosition(s)
  {
    if s.log.Keys != {} {
      assert s.log[CurrentPosition(s)] in s.history;
    }
  }

  /** A step of another process that commits nothing leaves a replica as it was. */
  lemma NodeFrame(extract: seq<int> -> seq<int>, s: State, s': State, node: Node, phase: Phase)
    requires NodeInv(extract, s, node) && s'.corpus == s.corpus && s'.history == s.history
    requires phase == node.phase || !node.phase.Scanning?
    ensures NodeInv(extract, s', node.(phase := phase))
  {
    assert node.(phase := phase).index == node.index;
  }

  lemma CommitKeepsNodeInv(extract: seq<int> -> seq<int>, s: State, s': State, t: Tx, node: Node)
    requires NodeInv(extract, s, node)
    requires forall x, y :: x in s.history && y in t.rows ==> x.id < y.id
    requires forall e :: e in t.rows ==> 1 <= e.id
    requires TxInv(extract, t) && t.untriggered == []
    requires forall id :: id in t.inserted ==> id !in s.corpus
    requires s'.corpus == s.corpus + t.inserted && s'.history == s.history + t.rows
    ensures NodeInv(extract, s', node)
  {
    forall e | e in t.rows
      ensures node.cursor < e.id
    {
    }
    BetweenIgnoresLater(s.history, t.rows, node.start, node.cursor);
    forall d | d in s'.corpus
      ensures d in node.index || Document(extract, s', d) == [] || StillToCome(s', node, d)
    {
      if d in t.inserted {
        var e :| e in t.rows && e.fingerprint == d;
        assert e in s'.history;
      } else {
        assert forall e :: e in s.history ==> e in s'.history;
      }
    }
  }

  lemma UncommittedIsPositive(s: State)
    requires Ordered(s.history + Uncommitted(s), s.nextEntry, s.clock)
    ensures forall e :: e in Uncommitted(s) ==> 1 <= e.id
  {
    hide Uncommitted;
    UncommittedOrdered(s);
  }

  lemma CommitFacts(extract: seq<int> -> seq<int>, s: State, tx: nat)
    requires WriterInv(extract, s) && TxEnabled(s, Commit(tx))
    ensures forall x, y :: x in s.history && y in s.open[tx].rows ==> x.id < y.id
    ensures forall e :: e in s.open[tx].rows ==> 1 <= e.id
    ensures forall id :: id in s.open[tx].inserted ==> id !in s.corpus
    ensures TxInv(extract, s.open[tx])
  {
    hide Ordered, ById, LockInv;
    CommitShape(extract, s, tx);
    UncommittedIsPositive(s);
    assert forall e :: e in s.open[tx].rows ==> e in Uncommitted(s);
  }

  lemma CommitKeepsNodes(extract: seq<int> -> seq<int>, s: State, tx: nat, n: nat)
    requires WriterInv(extract, s) && TxEnabled(s, Commit(tx))
    requires n in s.nodes && NodeInv(extract, s, s.nodes[n])
    ensures NodeInv(extract, ApplyTx(extract, s, Commit(tx)), s.nodes[n])
  {
    CommitFacts(extract, s, tx);
    CommitKeepsNodeInv(extract, s, ApplyTx(extract, s, Commit(tx)), s.open[tx], s.nodes[n]);
  }

  /** Any other step changes at most one node, which keeps its invariant. */
  lemma NodeAfterStep(extract: seq<int> -> seq<int>, s: State, step: Step, n: nat)
    requires Sound(extract, s) && Enabled(s, step) && Assumed(s, step) && !step.Commit?
    requires forall m :: m in s.nodes ==> NodeInv(extract, s, s.nodes[m])
    requires n in Apply(extract, s, step).nodes
    ensures NodeInv(extract, s, Apply(extract, s, step).nodes[n])
  {
    hide WriterInv, RetentionInv, NodeInv, Complete, IdsIncrease, TableOf, Extracted, Resumable,
         CurrentPosition, Page, Batch, Served, Scanned, NextRows, BelowFloor, WithinRetention;
    var node' := Apply(extract, s, step).nodes[n];
    if n in s.nodes && node' == s.nodes[n] {
      return;
    }
    SoundTable(extract, s);
    match step {
      case Bootstrap(m) =>
        PositionIsCommitted(s);
        BootstrapNodeInv(extract, s, CurrentPosition(s));
      case ScanChunk(m, limit) => ScanKeepsNodeInv(extract, s, s.nodes[n], limit, node');
      case CheckFloor(m) => NodeFrame(extract, s, s, s.nodes[n], node'.phase);
      case ReadBatch(m, limit) =>
        TrustedPositionsAreResumable(extract, s, s.nodes[n].cursor);
        BatchIsNextRows(s, s.nodes[n].cursor, limit);
        ReadKeepsNodeInv(extract, s, s.nodes[n], limit, Batch(s, s.nodes[n].cursor, limit));
    }
  }

  lemma OnlyCommitPublishes(extract: seq<int> -> seq<int>, s: State, step: Step)
    requires Enabled(s, step) && !step.Commit?
    ensures Apply(extract, s, step).corpus == s.corpus && Apply(extract, s, step).history == s.history
  {
  }

  lemma StepKeepsNodes(extract: seq<int> -> seq<int>, s: State, step: Step)
    requires Inv(extract, s) && Enabled(s, step) && Assumed(s, step)
    ensures
      var s' := Apply(extract, s, step);
      forall n :: n in s'.nodes ==> NodeInv(extract, s', s'.nodes[n])
  {
    var s' := Apply(extract, s, step);
    forall n | n in s'.nodes
      ensures NodeInv(extract, s', s'.nodes[n])
    {
      if step.Commit? {
        CommitKeepsNodes(extract, s, step.tx, n);
      } else {
        NodeAfterStep(extract, s, step, n);
        OnlyCommitPublishes(extract, s, step);
        NodeFrame(extract, s, s', s'.nodes[n], s'.nodes[n].phase);
      }
    }
  }

  lemma StepKeepsInv(extract: seq<int> -> seq<int>, s: State, step: Step)
    requires Inv(extract, s) && Enabled(s, step) && Assumed(s, step)
    ensures Inv(extract, Apply(extract, s, step))
    ensures FloorRose(s, Apply(extract, s, step))
  {
    StepKeepsWriterInv(extract, s, step);
    StepKeepsRetentionInv(extract, s, step);
    StepKeepsNodes(extract, s, step);
  }

  // ----- every run ------------------------------------------------------------------------

  lemma {:induction false} RunKeepsInv(extract: seq<int> -> seq<int>, s: State, steps: seq<Step>)
    requires Inv(extract, s) && Run(extract, s, steps)
    ensures Inv(extract, Exec(extract, s, steps))
    ensures FloorRose(s, Exec(extract, s, steps))
    decreases |steps|
  {
    if steps != [] {
      StepKeepsInv(extract, s, steps[0]);
      RunKeepsInv(extract, Apply(extract, s, steps[0]), steps[1..]);
    }
  }

  lemma {:induction false} RunSnoc(extract: seq<int> -> seq<int>, s: State, steps: seq<Step>, step: Step)
    requires Run(extract, s, steps)
    requires Enabled(Exec(extract, s, steps), step) && Assumed(Exec(extract, s, steps), step)
    ensures Run(extract, s, steps + [step])
    ensures Exec(extract, s, steps + [step]) == Apply(extract, Exec(extract, s, steps), step)
    decreases |steps|
  {
    if steps == [] {
      assert [step][1..] == [];
    } else {
      assert (steps + [step])[1..] == steps[1..] + [step];
      RunSnoc(extract, Apply(extract, s, steps[0]), steps[1..], step);
    }
  }
}
