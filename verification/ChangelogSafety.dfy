/** What every run of the changelog protocol keeps. */
module ChangelogSafety {
  import opened Calendar
  import opened Hashes
  import opened Wrappers
  import opened Changelog

  // ----- the invariant ----------------------------------------------------------

  /** In commit order ids strictly increase and timestamps never decrease. */
  ghost predicate Ordered(rows: seq<Entry>, nextEntry: nat, clock: Instant) {
    && (forall i :: 0 <= i < |rows| ==> 1 <= rows[i].id < nextEntry && AtMost(rows[i].created, clock))
    && (forall i, j :: 0 <= i < j < |rows| ==> rows[i].id < rows[j].id && AtMost(rows[i].created, rows[j].created))
  }

  ghost predicate LockInv(s: State) {
    && (s.lock.Some? ==> s.lock.value in s.open)
    && (forall t :: t in s.open && s.open[t].rows != [] ==> s.lock == Some(t))
  }

  ghost predicate IdsInv(s: State) {
    && (forall id :: id in s.corpus ==> 0 < id < s.nextFingerprint)
    && (forall t, id :: t in s.open && id in s.open[t].inserted ==> 0 < id < s.nextFingerprint && id !in s.corpus)
    && (forall t, u, id :: t in s.open && u in s.open && id in s.open[t].inserted && id in s.open[u].inserted ==> t == u)
    && 0 < s.nextFingerprint
  }

  /** Every fingerprint of a transaction has its trigger pending or its row written. */
  ghost predicate TxInv(extract: seq<int> -> seq<int>, t: Tx) {
    && (forall id :: id in t.untriggered ==> id in t.inserted)
    && (forall e :: e in t.rows ==> e.fingerprint in t.inserted && e.query == extract(t.inserted[e.fingerprint]))
    && (forall id :: id in t.inserted ==> id in t.untriggered || exists e :: e in t.rows && e.fingerprint == id)
  }

  ghost predicate WriterInv(extract: seq<int> -> seq<int>, s: State) {
    && Ordered(s.history + Uncommitted(s), s.nextEntry, s.clock)
    && LockInv(s)
    && IdsInv(s)
    && (forall t :: t in s.open ==> TxInv(extract, s.open[t]))
    && (forall e :: e in s.history ==> e.fingerprint in s.corpus && e.query == extract(s.corpus[e.fingerprint]))
    && 1 <= s.nextEntry
  }

  /** Whatever retention removed is at or below the floor and out of the window. */
  ghost predicate RetentionInv(s: State) {
    && (forall id :: id in s.log ==> s.log[id].id == id && s.log[id] in s.history)
    && (forall e :: e in s.history ==> e.id in s.log || AtOrBelowFloor(s, e.id))
    && (forall e :: e in s.history ==> e.id in s.log || e.created.month < s.clock.month - RETENTION_MONTHS)
    && (forall m :: m in s.recorded ==> m < s.clock.month - RETENTION_MONTHS)
    && (forall e :: e in s.history && e.created.month in s.recorded ==> AtOrBelowFloor(s, e.id))
    && (forall e :: e in Uncommitted(s) ==> e.created.month !in s.recorded)
    && FloorIsRetired(s)
  }

  /** The watermark is the id of a committed row of a month that has been recorded. */
  ghost predicate FloorIsRetired(s: State) {
    s.floor.Some? ==> exists e :: e in s.history && e.id == s.floor.value && e.created.month in s.recorded
  }

  ghost predicate AtOrBelowFloor(s: State, id: nat) {
    s.floor.Some? && id <= s.floor.value
  }

  /** The rows of a history with `lo < id <= hi`. */
  function Between(history: seq<Entry>, lo: nat, hi: nat): seq<Entry> {
    if history == [] then []
    else
      var last := history[|history| - 1];
      Between(history[..|history| - 1], lo, hi) + if lo < last.id <= hi then [last] else []
  }

  /** The document a fingerprint ought to have, absent when nothing can be extracted. */
  function Document(extract: seq<int> -> seq<int>, s: State, d: nat): seq<int>
    requires d in s.corpus
  {
    ToUnsigned(extract(s.corpus[d]))
  }

  ghost predicate StillToCome(s: State, node: Node, d: nat) {
    || (node.phase.Scanning? && node.phase.lastId < d)
    || (exists e :: e in s.history && e.fingerprint == d && node.cursor < e.id)
  }

  ghost predicate NodeInv(extract: seq<int> -> seq<int>, s: State, node: Node) {
    && node.start <= node.cursor
    && (node.cursor == 0 || exists e :: e in s.history && e.id == node.cursor)
    && node.received == Between(s.history, node.start, node.cursor)
    && (forall d :: d in node.index ==> d in s.corpus && node.index[d] == Document(extract, s, d))
    && (forall d :: d in s.corpus ==> d in node.index || Document(extract, s, d) == [] || StillToCome(s, node, d))
  }

  ghost predicate Inv(extract: seq<int> -> seq<int>, s: State) {
    && WriterInv(extract, s)
    && RetentionInv(s)
    && forall n :: n in s.nodes ==> NodeInv(extract, s, s.nodes[n])
  }

  lemma InitInv(extract: seq<int> -> seq<int>, s: State)
    requires Init(s)
    ensures Inv(extract, s)
  {
  }

  // ----- writers ------------------------------------------------------------------

  lemma AtMostTransitive(a: Instant, b: Instant, c: Instant)
    requires AtMost(a, b) && AtMost(b, c)
    ensures AtMost(a, c)
  {
  }

  lemma TickKeepsWriterInv(extract: seq<int> -> seq<int>, s: State, now: Instant)
    requires WriterInv(extract, s) && AtMost(s.clock, now)
    ensures WriterInv(extract, s.(clock := now))
  {
    var rows := s.history + Uncommitted(s);
    forall i | 0 <= i < |rows|
      ensures AtMost(rows[i].created, now)
    {
      AtMostTransitive(rows[i].created, s.clock, now);
    }
    assert Uncommitted(s.(clock := now)) == Uncommitted(s);
  }

  lemma TxStepKeepsWriterInv(extract: seq<int> -> seq<int>, s: State, step: Step)
    requires WriterInv(extract, s) && TxEnabled(s, step)
    ensures WriterInv(extract, ApplyTx(extract, s, step))
  {
    hide WriterInv;
    match step {
      case Begin(tx) =>
        BeginKeepsWriterInv(extract, s, tx);
      case Insert(tx, hashes) =>
        InsertKeepsWriterInv(extract, s, tx, hashes);
      case Lock(tx) =>
        LockKeepsWriterInv(extract, s, tx);
      case Append(tx) =>
        AppendKeepsWriterInv(extract, s, tx);
      case AppendFails(tx) =>
        CloseKeepsWriterInv(extract, s, tx);
      case Commit(tx) =>
        CommitKeepsWriterInv(extract, s, tx);
      case Abort(tx) =>
        CloseKeepsWriterInv(extract, s, tx);
    }
  }

  lemma PrefixOrdered(a: seq<Entry>, b: seq<Entry>, nextEntry: nat, clock: Instant)
    requires Ordered(a + b, nextEntry, clock)
    ensures Ordered(a, nextEntry, clock)
    ensures forall x, y :: x in a && y in b ==> x.id < y.id
  {
    assert forall i :: 0 <= i < |a| ==> a[i] == (a + b)[i];
    assert forall i :: 0 <= i < |b| ==> b[i] == (a + b)[|a| + i];
  }

  lemma BeginKeepsWriterInv(extract: seq<int> -> seq<int>, s: State, tx: nat)
    requires WriterInv(extract, s) && tx !in s.open
    ensures WriterInv(extract, ApplyTx(extract, s, Begin(tx)))
  {
    hide Ordered, IdsInv;
    var s' := ApplyTx(extract, s, Begin(tx));
    assert Uncommitted(s') == Uncommitted(s);
    OpenedIdsInv(s, s', tx);
  }

  lemma OpenedIdsInv(s: State, s': State, tx: nat)
    requires IdsInv(s) && s' == s.(open := s.open[tx := EmptyTx()])
    ensures IdsInv(s')
  {
  }

  lemma LockKeepsWriterInv(extract: seq<int> -> seq<int>, s: State, tx: nat)
    requires WriterInv(extract, s) && TxEnabled(s, Lock(tx))
    ensures WriterInv(extract, ApplyTx(extract, s, Lock(tx)))
  {
    assert Uncommitted(ApplyTx(extract, s, Lock(tx))) == Uncommitted(s);
  }

  lemma SuffixOrdered(a: seq<Entry>, b: seq<Entry>, nextEntry: nat, clock: Instant)
    requires Ordered(a + b, nextEntry, clock)
    ensures Ordered(b, nextEntry, clock)
  {
    hide AtMost;
    forall i | 0 <= i < |b|
      ensures b[i] == (a + b)[|a| + i]
    {
    }
    forall i, j | 0 <= i < j < |b|
      ensures b[i].id < b[j].id && AtMost(b[i].created, b[j].created)
    {
      assert (a + b)[|a| + i].id < (a + b)[|a| + j].id;
    }
  }

  lemma InsertKeepsWriterInv(extract: seq<int> -> seq<int>, s: State, tx: nat, hashes: seq<int>)
    requires WriterInv(extract, s) && tx in s.open
    ensures WriterInv(extract, ApplyTx(extract, s, Insert(tx, hashes)))
  {
    hide Ordered, TxInv, IdsInv;
    var s' := ApplyTx(extract, s, Insert(tx, hashes));
    assert Uncommitted(s') == Uncommitted(s);
    NextIsNew(s, tx);
    TxAfterInsert(extract, s.open[tx], s.nextFingerprint, hashes);
    InsertKeepsIdsInv(s, s', tx, hashes);
  }

  lemma NextIsNew(s: State, tx: nat)
    requires IdsInv(s) && tx in s.open
    ensures s.nextFingerprint !in s.open[tx].inserted
  {
  }

  lemma InsertKeepsIdsInv(s: State, s': State, tx: nat, hashes: seq<int>)
    requires IdsInv(s) && tx in s.open && s'.corpus == s.corpus && s'.nextFingerprint == s.nextFingerprint + 1
    requires exists t' :: s'.open == s.open[tx := t'] && t'.inserted == s.open[tx].inserted[s.nextFingerprint := hashes]
    ensures IdsInv(s')
  {
  }

  lemma TxAfterInsert(extract: seq<int> -> seq<int>, t: Tx, id: nat, hashes: seq<int>)
    requires TxInv(extract, t) && id !in t.inserted
    ensures TxInv(extract, t.(inserted := t.inserted[id := hashes], untriggered := t.untriggered + [id]))
  {
    assert (t.untriggered + [id])[|t.untriggered|] == id;
    assert forall d :: d in t.untriggered ==> d in t.untriggered + [id];
  }

  lemma AppendKeepsWriterInv(extract: seq<int> -> seq<int>, s: State, tx: nat)
    requires WriterInv(extract, s) && TxEnabled(s, Append(tx))
    ensures WriterInv(extract, ApplyTx(extract, s, Append(tx)))
  {
    hide WriterInv, Ordered, IdsInv;
    OpenTxInv(extract, s, tx);
    var t := s.open[tx];
    assert t.untriggered[0] in t.untriggered;
    var e := Entry(s.nextEntry, t.untriggered[0], extract(t.inserted[t.untriggered[0]]), s.clock);
    var t' := t.(untriggered := t.untriggered[1..], rows := t.rows + [e]);
    TxAfterTrigger(extract, t, e);
    RowAppended(extract, s, s.(open := s.open[tx := t'], nextEntry := s.nextEntry + 1), tx, t', e);
  }

  lemma OpenTxInv(extract: seq<int> -> seq<int>, s: State, tx: nat)
    requires WriterInv(extract, s) && tx in s.open
    ensures TxInv(extract, s.open[tx])
  {
  }

  lemma RowAppended(extract: seq<int> -> seq<int>, s: State, s': State, tx: nat, t': Tx, e: Entry)
    requires WriterInv(extract, s) && tx in s.open && s.lock == Some(tx)
    requires t'.inserted == s.open[tx].inserted && t'.rows == s.open[tx].rows + [e] && TxInv(extract, t')
    requires e.id == s.nextEntry && e.created == s.clock
    requires s' == s.(open := s.open[tx := t'], nextEntry := s.nextEntry + 1)
    ensures WriterInv(extract, s')
  {
    hide Ordered, IdsInv, TxInv;
    AppendOrdered(s.history + Uncommitted(s), e, s.nextEntry, s.clock);
    assert s'.history + Uncommitted(s') == (s.history + Uncommitted(s)) + [e];
    SameInsertsKeepIdsInv(s, s', tx, t');
  }

  lemma SameInsertsKeepIdsInv(s: State, s': State, tx: nat, t': Tx)
    requires IdsInv(s) && tx in s.open && t'.inserted == s.open[tx].inserted
    requires s'.open == s.open[tx := t'] && s'.corpus == s.corpus && s'.nextFingerprint == s.nextFingerprint
    ensures IdsInv(s')
  {
    assert forall u :: u in s'.open ==> u in s.open && s'.open[u].inserted == s.open[u].inserted;
  }

  lemma TxAfterTrigger(extract: seq<int> -> seq<int>, t: Tx, e: Entry)
    requires TxInv(extract, t) && t.untriggered != []
    requires t.untriggered[0] in t.inserted
    requires e.fingerprint == t.untriggered[0] && e.query == extract(t.inserted[e.fingerprint])
    ensures TxInv(extract, t.(untriggered := t.untriggered[1..], rows := t.rows + [e]))
  {
    assert t.untriggered == [t.untriggered[0]] + t.untriggered[1..];
    assert e in t.rows + [e];
    assert forall r :: r in t.rows ==> r in t.rows + [e];
  }

  lemma AppendOrdered(rows: seq<Entry>, e: Entry, nextEntry: nat, clock: Instant)
    requires Ordered(rows, nextEntry, clock) && e.id == nextEntry && 1 <= nextEntry && e.created == clock
    ensures Ordered(rows + [e], nextEntry + 1, clock)
  {
  }

  lemma CloseKeepsWriterInv(extract: seq<int> -> seq<int>, s: State, tx: nat)
    requires WriterInv(extract, s) && tx in s.open
    ensures WriterInv(extract, CloseTx(s, tx))
    ensures WriterInv(extract, CloseTx(s, tx).(nextEntry := s.nextEntry + 1))
  {
    hide Ordered, IdsInv, TxInv;
    var s' := CloseTx(s, tx);
    PrefixOrdered(s.history, Uncommitted(s), s.nextEntry, s.clock);
    assert s.history + [] == s.history;
    assert Uncommitted(s') == if s.lock == Some(tx) then [] else Uncommitted(s);
    assert Uncommitted(s'.(nextEntry := s.nextEntry + 1)) == Uncommitted(s');
    OrderedHigher(s'.history + Uncommitted(s'), s.nextEntry, s.clock);
    ClosedIdsInv(s, s', tx);
    SameIdsInv(s', s'.(nextEntry := s.nextEntry + 1));
  }

  lemma OrderedHigher(rows: seq<Entry>, nextEntry: nat, clock: Instant)
    requires Ordered(rows, nextEntry, clock)
    ensures Ordered(rows, nextEntry + 1, clock)
  {
  }

  lemma ClosedIdsInv(s: State, s': State, tx: nat)
    requires IdsInv(s) && s'.open == s.open - {tx} && s'.corpus == s.corpus && s'.nextFingerprint == s.nextFingerprint
    ensures IdsInv(s')
  {
  }

  lemma SameIdsInv(s: State, s': State)
    requires IdsInv(s) && s'.open == s.open && s'.corpus == s.corpus && s'.nextFingerprint == s.nextFingerprint
    ensures IdsInv(s')
  {
  }

  lemma CommitKeepsWriterInv(extract: seq<int> -> seq<int>, s: State, tx: nat)
    requires WriterInv(extract, s) && TxEnabled(s, Commit(tx))
    ensures WriterInv(extract, ApplyTx(extract, s, Commit(tx)))
  {
    hide Ordered, IdsInv, ById;
    var s' := ApplyTx(extract, s, Commit(tx));
    CommittedIdsInv(s, s', tx);
    CommittedRows(extract, s, s', tx);
    if s.lock == Some(tx) {
      assert Uncommitted(s') == [];
      assert s'.history + Uncommitted(s') == s.history + Uncommitted(s);
    } else {
      assert s.open[tx].rows == [];
      assert Uncommitted(s') == Uncommitted(s);
      assert s'.history == s.history;
    }
  }

  lemma CommittedIdsInv(s: State, s': State, tx: nat)
    requires IdsInv(s) && tx in s.open && s'.open == s.open - {tx} && s'.nextFingerprint == s.nextFingerprint
    requires s'.corpus == s.corpus + s.open[tx].inserted
    ensures IdsInv(s')
  {
  }

  /** The committed rows carry the query of their fingerprint. */
  lemma CommittedRows(extract: seq<int> -> seq<int>, s: State, s': State, tx: nat)
    requires tx in s.open && TxInv(extract, s.open[tx]) && IdsInv(s)
    requires forall e :: e in s.history ==> e.fingerprint in s.corpus && e.query == extract(s.corpus[e.fingerprint])
    requires s'.corpus == s.corpus + s.open[tx].inserted && s'.history == s.history + s.open[tx].rows
    ensures forall e :: e in s'.history ==> e.fingerprint in s'.corpus && e.query == extract(s'.corpus[e.fingerprint])
  {
  }

  // ----- retention ----------------------------------------------------------------

  lemma {:induction false} ByIdHoldsRows(rows: seq<Entry>)
    requires forall i, j :: 0 <= i < j < |rows| ==> rows[i].id < rows[j].id
    ensures forall e :: e in rows ==> e.id in ById(rows) && ById(rows)[e.id] == e
    ensures forall id :: id in ById(rows) ==> ById(rows)[id].id == id && ById(rows)[id] in rows
  {
    if rows != [] {
      var init, last := rows[..|rows| - 1], rows[|rows| - 1];
      ByIdHoldsRows(init);
      assert rows == init + [last];
    }
  }

  lemma UncommittedOrdered(s: State)
    requires Ordered(s.history + Uncommitted(s), s.nextEntry, s.clock)
    ensures Ordered(s.history, s.nextEntry, s.clock) && Ordered(Uncommitted(s), s.nextEntry, s.clock)
    ensures forall x, y :: x in s.history && y in Uncommitted(s) ==> x.id < y.id
  {
    PrefixOrdered(s.history, Uncommitted(s), s.nextEntry, s.clock);
    SuffixOrdered(s.history, Uncommitted(s), s.nextEntry, s.clock);
  }

  lemma SameIdSameEntry(rows: seq<Entry>, nextEntry: nat, clock: Instant, x: Entry, y: Entry)
    requires Ordered(rows, nextEntry, clock) && x in rows && y in rows && x.id == y.id
    ensures x == y
  {
    var i :| 0 <= i < |rows| && rows[i] == x;
    var j :| 0 <= j < |rows| && rows[j] == y;
  }

  /** A stored row is the history's row with that id. */
  lemma LogIsHistory(extract: seq<int> -> seq<int>, s: State)
    requires WriterInv(extract, s) && RetentionInv(s)
    ensures forall e :: e in s.history && e.id in s.log ==> s.log[e.id] == e
  {
    UncommittedOrdered(s);
    forall e | e in s.history && e.id in s.log
      ensures s.log[e.id] == e
    {
      SameIdSameEntry(s.history, s.nextEntry, s.clock, e, s.log[e.id]);
    }
  }

  lemma RetentionFrame(s: State, s': State)
    requires RetentionInv(s)
    requires s'.history == s.history && s'.log == s.log && s'.floor == s.floor && s'.recorded == s.recorded
    requires AtMost(s.clock, s'.clock)
    requires forall e :: e in Uncommitted(s') ==> e in Uncommitted(s) || e.created.month == s.clock.month
    ensures RetentionInv(s')
  {
  }

  lemma CommitKeepsRetentionInv(extract: seq<int> -> seq<int>, s: State, tx: nat)
    requires WriterInv(extract, s) && RetentionInv(s) && TxEnabled(s, Commit(tx))
    ensures RetentionInv(ApplyTx(extract, s, Commit(tx)))
  {
    hide WriterInv, RetentionInv, ById, Uncommitted;
    var s' := ApplyTx(extract, s, Commit(tx));
    CommitShape(extract, s, tx);
    if s.open[tx].rows == [] {
      NothingCommitted(s, s');
    } else {
      RowsCommitted(s, s', s.open[tx].rows);
    }
  }

  lemma CommitShape(extract: seq<int> -> seq<int>, s: State, tx: nat)
    requires WriterInv(extract, s) && TxEnabled(s, Commit(tx))
    ensures
      var s' := ApplyTx(extract, s, Commit(tx));
      var rows := s.open[tx].rows;
      && (Uncommitted(s') == [] || (rows == [] && Uncommitted(s') == Uncommitted(s)))
      && (rows != [] ==> Uncommitted(s) == rows)
      && forall x, y :: x in s.history && y in rows ==> x.id < y.id
    ensures
      var rows := s.open[tx].rows;
      && (forall e :: e in rows ==> e.id in ById(rows) && ById(rows)[e.id] == e)
      && (forall id :: id in ById(rows) ==> ById(rows)[id].id == id && ById(rows)[id] in rows)
  {
    UncommittedOrdered(s);
    ByIdHoldsRows(s.open[tx].rows);
  }

  lemma NothingCommitted(s: State, s': State)
    requires RetentionInv(s)
    requires s'.history == s.history + [] && s'.log == s.log + ById([])
    requires s'.floor == s.floor && s'.recorded == s.recorded && s'.clock == s.clock
    requires Uncommitted(s') == Uncommitted(s) || Uncommitted(s') == []
    ensures RetentionInv(s')
  {
    assert s'.history == s.history && s'.log == s.log;
    RetentionFrame(s, s');
  }

  lemma RowsCommitted(s: State, s': State, rows: seq<Entry>)
    requires RetentionInv(s) && Uncommitted(s) == rows && Uncommitted(s') == []
    requires forall x, y :: x in s.history && y in rows ==> x.id < y.id
    requires s'.history == s.history + rows && s'.log == s.log + ById(rows)
    requires forall e :: e in rows ==> e.id in ById(rows) && ById(rows)[e.id] == e
    requires forall id :: id in ById(rows) ==> ById(rows)[id].id == id && ById(rows)[id] in rows
    requires s'.floor == s.floor && s'.recorded == s.recorded && s'.clock == s.clock
    ensures RetentionInv(s')
  {
    LogGrows(s, s', rows, ById(rows));
    HistoryGrows(s, s', rows);
    hide ById, Uncommitted, AtOrBelowFloor;
    assert forall m :: m in s'.recorded ==> m < s'.clock.month - RETENTION_MONTHS;
    FloorStays(s, s');
  }

  /** The rows are committed and stored in the same moment. */
  lemma LogGrows(s: State, s': State, rows: seq<Entry>, added: map<nat, Entry>)
    requires forall id :: id in s.log ==> s.log[id].id == id && s.log[id] in s.history
    requires forall id :: id in added ==> added[id].id == id && added[id] in rows
    requires forall e :: e in rows ==> e.id in added
    requires s'.history == s.history + rows && s'.log == s.log + added
    ensures forall id :: id in s'.log ==> s'.log[id].id == id && s'.log[id] in s'.history
    ensures forall e :: e in s'.history && e.id !in s'.log ==> e in s.history && e.id !in s.log
  {
  }

  /** None of them belongs to a month that has been recorded. */
  lemma HistoryGrows(s: State, s': State, rows: seq<Entry>)
    requires forall e :: e in rows ==> e.created.month !in s.recorded
    requires s'.history == s.history + rows && s'.recorded == s.recorded
    ensures forall e :: e in s'.history && e.created.month in s'.recorded ==> e in s.history && e.created.month in s.recorded
  {
  }

  lemma FloorStays(s: State, s': State)
    requires FloorIsRetired(s) && s'.floor == s.floor && s'.recorded == s.recorded && s.history <= s'.history
    ensures FloorIsRetired(s')
    ensures forall id :: AtOrBelowFloor(s', id) <==> AtOrBelowFloor(s, id)
  {
    if s.floor.Some? {
      var e :| e in s.history && e.id == s.floor.value && e.created.month in s.recorded;
      assert e in s'.history;
    }
  }

  lemma RecordKeepsRetentionInv(extract: seq<int> -> seq<int>, s: State, s': State, month: int)
    requires WriterInv(extract, s) && RetentionInv(s) && Enabled(s, RecordFloor(month)) && Assumed(s, RecordFloor(month))
    requires s' == s.(floor := RaisedFloor(s, month), recorded := s.recorded + {month})
    ensures RetentionInv(s') && FloorRose(s, s')
  {
    hide WriterInv;
    assert Uncommitted(s') == Uncommitted(s);
    LogIsHistory(extract, s);
    FloorCoversMonth(s, s', month);
    hide RaisedFloor, StoredIn, Uncommitted;
    assert FloorIsRetired(s') by {
      FloorMoved(s, s', month);
    }
    hide FloorIsRetired;
    forall e | e in s.history && e.created.month == month
      ensures AtOrBelowFloor(s', e.id)
    {
      assert e.id in s.log ==> s.log[e.id] == e;
    }
  }

  lemma FloorMoved(s: State, s': State, month: int)
    requires FloorIsRetired(s) && s'.history == s.history && s'.recorded == s.recorded + {month}
    requires forall id :: id in s.log ==> s.log[id].id == id && s.log[id] in s.history
    requires s'.floor != s.floor ==>
               s'.floor.Some? && s'.floor.value in s.log && s.log[s'.floor.value].created.month == month
    ensures FloorIsRetired(s')
  {
    if s'.floor == s.floor && s.floor.Some? {
      var e :| e in s.history && e.id == s.floor.value && e.created.month in s.recorded;
      assert e in s'.history && e.created.month in s'.recorded;
    } else if s'.floor.Some? {
      assert s.log[s'.floor.value] in s'.history;
    }
  }

  /** The watermark rises to the highest stored row of the month, or stays. */
  lemma FloorCoversMonth(s: State, s': State, month: int)
    requires s'.floor == RaisedFloor(s, month)
    ensures FloorRose(s, s') && forall id :: AtOrBelowFloor(s, id) ==> AtOrBelowFloor(s', id)
    ensures forall id :: id in s.log && s.log[id].created.month == month ==> AtOrBelowFloor(s', id)
    ensures s'.floor != s.floor ==>
              s'.floor.Some? && s'.floor.value in s.log && s.log[s'.floor.value].created.month == month
  {
    assert forall id :: id in s.log && s.log[id].created.month == month ==> id in StoredIn(s, month);
  }

  /** The watermark only ever moves forward. */
  ghost predicate FloorRose(s: State, s': State) {
    s.floor.Some? ==> s'.floor.Some? && s.floor.value <= s'.floor.value
  }

  lemma DropKeepsRetentionInv(extract: seq<int> -> seq<int>, s: State, s': State, month: int)
    requires WriterInv(extract, s) && RetentionInv(s) && Enabled(s, DropPartition(month))
    requires s' == Apply(extract, s, DropPartition(month))
    ensures RetentionInv(s')
  {
    hide WriterInv, FloorIsRetired;
    assert Uncommitted(s') == Uncommitted(s);
    LogIsHistory(extract, s);
    FloorStays(s, s');
    hide Uncommitted;
    assert forall e :: e in s.history && e.id in s.log && e.created.month != month ==> e.id in s'.log;
  }

  lemma StepKeepsRetentionInv(extract: seq<int> -> seq<int>, s: State, step: Step)
    requires WriterInv(extract, s) && RetentionInv(s) && Enabled(s, step) && Assumed(s, step)
    ensures RetentionInv(Apply(extract, s, step)) && FloorRose(s, Apply(extract, s, step))
  {
    hide WriterInv, RetentionInv, StoredIn, RaisedFloor, ById, CurrentPosition, Uncommitted;
    var s' := Apply(extract, s, step);
    if step.RecordFloor? || step.DropPartition? || step.Commit? {
      hide Absorb, ChunkChanges, Scanned, Served, Batch;
      match step {
        case RecordFloor(month) => RecordKeepsRetentionInv(extract, s, s', month);
        case DropPartition(month) => DropKeepsRetentionInv(extract, s, s', month);
        case Commit(tx) => CommitKeepsRetentionInv(extract, s, tx);
      }
    } else {
      SideStepFrame(extract, s, step);
      hide Apply, Enabled, Assumed;
      RetentionFrame(s, s');
    }
  }

  lemma SideStepFrame(extract: seq<int> -> seq<int>, s: State, step: Step)
    requires WriterInv(extract, s)
    requires Enabled(s, step) && !step.RecordFloor? && !step.DropPartition? && !step.Commit?
    ensures
      var s' := Apply(extract, s, step);
      && s'.history == s.history && s'.log == s.log && s'.floor == s.floor && s'.recorded == s.recorded
      && AtMost(s.clock, s'.clock)
      && forall e :: e in Uncommitted(s') ==> e in Uncommitted(s) || e.created.month == s.clock.month
  {
    hide Ordered, IdsInv, TxInv, CurrentPosition, Batch, Served, Scanned, RaisedFloor, ById;
  }

  lemma WriterFrame(extract: seq<int> -> seq<int>, s: State, s': State)
    requires WriterInv(extract, s)
    requires s'.history == s.history && s'.open == s.open && s'.lock == s.lock && s'.corpus == s.corpus
    requires s'.clock == s.clock && s'.nextEntry == s.nextEntry && s'.nextFingerprint == s.nextFingerprint
    ensures WriterInv(extract, s')
  {
    assert Uncommitted(s') == Uncommitted(s);
  }

  lemma StepKeepsWriterInv(extract: seq<int> -> seq<int>, s: State, step: Step)
    requires WriterInv(extract, s) && Enabled(s, step)
    ensures WriterInv(extract, Apply(extract, s, step))
  {
    if step.Tick? {
      TickKeepsWriterInv(extract, s, step.now);
    } else if TxEnabled(s, step) {
      TxStepKeepsWriterInv(extract, s, step);
    } else {
      WriterFrame(extract, s, Apply(extract, s, step));
    }
  }
}
