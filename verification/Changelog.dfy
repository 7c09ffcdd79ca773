/** The fpindex changelog replication protocol as a step system: writers with the
    insert trigger (acoustid/tables.py), the feed and the bootstrap scan
    (acoustid/future/fpindex/feed.py), partition maintenance
    (acoustid/scripts/fpindex_changelog.py), and the nodes that replicate.

    Every step is one statement or one transaction of one process; any interleaving
    of steps is a run. `extract` stands for the SQL function acoustid_extract_query. */
module Changelog {
  import opened Calendar
  import opened Hashes
  import opened Pages
  import opened Sets
  import opened Wrappers

  const RETENTION_MONTHS := 2

  /** A row of fpindex_changelog. */
  datatype Entry = Entry(id: nat, fingerprint: nat, query: seq<int>, created: Instant)

  /** An open transaction: fingerprints inserted, those whose trigger has yet to run
      (in order), and the changelog rows the trigger has written. */
  datatype Tx = Tx(inserted: map<nat, seq<int>>, untriggered: seq<nat>, rows: seq<Entry>)

  /** `Gone` is a node that was answered 410; `FloorPassed` is a request between the
      two transactions of the feed handler. */
  datatype Phase = Scanning(lastId: nat) | Tailing | FloorPassed | Gone

  /** A replica. `start` is the position its bootstrap announced, `received` every
      changelog row it was served since. */
  datatype Node = Node(phase: Phase, start: nat, cursor: nat, received: seq<Entry>, index: map<nat, seq<int>>)

  datatype State = State(
    clock: Instant,
    nextFingerprint: nat,
    nextEntry: nat,
    corpus: map<nat, seq<int>>,     // committed fingerprint arrays by id
    history: seq<Entry>,            // every changelog row ever committed, in commit order
    log: map<nat, Entry>,           // the committed changelog rows still stored
    open: map<nat, Tx>,
    lock: Option<nat>,              // holder of the advisory lock
    partitions: set<int>,           // months that have a partition
    recorded: set<int>,             // months whose watermark statement has succeeded
    floor: Option<nat>,             // fpindex_meta.last_deleted_id
    nodes: map<nat, Node>)

  datatype Step =
    | Tick(now: Instant)
    | Begin(tx: nat)
    | Insert(tx: nat, hashes: seq<int>)
    | Lock(tx: nat)
    | Append(tx: nat)
    | AppendFails(tx: nat)
    | Commit(tx: nat)
    | Abort(tx: nat)
    | CreatePartition(month: int)
    | RecordFloor(month: int)
    | DropPartition(month: int)
    | Bootstrap(node: nat)
    | ScanChunk(node: nat, limit: nat)
    | CheckFloor(node: nat)
    | ReadBatch(node: nat, limit: nat)

  // ----- steps ----------------------------------------------------------------

  function EmptyTx(): Tx {
    Tx(map[], [], [])
  }

  predicate TxEnabled(s: State, step: Step) {
    match step
    case Begin(tx) => tx !in s.open
    case Insert(tx, _) => tx in s.open
    // pg_advisory_xact_lock waits for another holder and is re-entrant
    case Lock(tx) => tx in s.open && s.open[tx].untriggered != [] && (s.lock.None? || s.lock == Some(tx))
    case Append(tx) => tx in s.open && s.open[tx].untriggered != [] && s.lock == Some(tx) && s.clock.month in s.partitions
    case AppendFails(tx) => tx in s.open && s.open[tx].untriggered != [] && s.lock == Some(tx) && s.clock.month !in s.partitions
    case Commit(tx) => tx in s.open && s.open[tx].untriggered == []
    case Abort(tx) => tx in s.open
    case _ => false
  }

  predicate Enabled(s: State, step: Step) {
    match step
    case Tick(now) => AtMost(s.clock, now)
    case CreatePartition(_) => true
    // drop_partitions only touches months before a cutoff taken from an earlier clock
    case RecordFloor(month) => month in s.partitions && month < s.clock.month - RETENTION_MONTHS
    // DROP TABLE comes after a successful record, and its ACCESS EXCLUSIVE lock waits
    // for every transaction that has touched the changelog
    case DropPartition(month) =>
      month in s.partitions && month in s.recorded && forall t :: t in s.open ==> s.open[t].rows == []
    case Bootstrap(_) => true
    case ScanChunk(n, limit) => n in s.nodes && s.nodes[n].phase.Scanning? && 1 <= limit
    case CheckFloor(n) => n in s.nodes && s.nodes[n].phase.Tailing?
    case ReadBatch(n, _) => n in s.nodes && s.nodes[n].phase.FloorPassed?
    case _ => TxEnabled(s, step)
  }

  function CloseTx(s: State, tx: nat): State {
    s.(open := s.open - {tx}, lock := if s.lock == Some(tx) then None else s.lock)
  }

  function ById(rows: seq<Entry>): map<nat, Entry> {
    if rows == [] then map[] else ById(rows[..|rows| - 1])[rows[|rows| - 1].id := rows[|rows| - 1]]
  }

  function ApplyTx(extract: seq<int> -> seq<int>, s: State, step: Step): State
    requires TxEnabled(s, step)
  {
    match step
    case Begin(tx) => s.(open := s.open[tx := EmptyTx()])
    case Insert(tx, hashes) =>
      var t := s.open[tx];
      s.(open := s.open[tx := t.(inserted := t.inserted[s.nextFingerprint := hashes],
                                 untriggered := t.untriggered + [s.nextFingerprint])],
         nextFingerprint := s.nextFingerprint + 1)
    case Lock(tx) => s.(lock := Some(tx))
    case Append(tx) =>
      var t := s.open[tx];
      var id := t.untriggered[0];
      var hashes := if id in t.inserted then t.inserted[id] else [];
      s.(open := s.open[tx := t.(untriggered := t.untriggered[1..],
                                 rows := t.rows + [Entry(s.nextEntry, id, extract(hashes), s.clock)])],
         nextEntry := s.nextEntry + 1)
    case AppendFails(tx) => CloseTx(s, tx).(nextEntry := s.nextEntry + 1)
    case Commit(tx) =>
      var t := s.open[tx];
      CloseTx(s, tx).(corpus := s.corpus + t.inserted, history := s.history + t.rows, log := s.log + ById(t.rows))
    case Abort(tx) => CloseTx(s, tx)
  }

  function StoredIn(s: State, month: int): set<nat> {
    set id | id in s.log && s.log[id].created.month == month
  }

  /** `_record_last_deleted`: the highest row of the partition, if it is above the floor. */
  function RaisedFloor(s: State, month: int): Option<nat> {
    var ids := StoredIn(s, month);
    if ids == {} then s.floor
    else
      var top := Highest(ids);
      if s.floor.None? || s.floor.value < top then Some(top) else s.floor
  }

  /** `coalesce(max(id), 0)` over the rows still stored. */
  function CurrentPosition(s: State): nat {
    if s.log.Keys == {} then 0 else Highest(s.log.Keys)
  }

  function LogRows(s: State, ids: seq<nat>): (rows: seq<Entry>)
    requires forall id :: id in ids ==> id in s.log
  {
    seq(|ids|, i requires 0 <= i < |ids| => s.log[ids[i]])
  }

  /** What the feed answers: the rows after a position, in id order, up to a limit. */
  function Batch(s: State, after: nat, limit: nat): seq<Entry> {
    LogRows(s, Page(s.log.Keys, after, limit))
  }

  function Absorb(index: map<nat, seq<int>>, rows: seq<Entry>): map<nat, seq<int>> {
    if rows == [] then index
    else Absorb(index, rows[..|rows| - 1])[rows[|rows| - 1].fingerprint := ToUnsigned(rows[|rows| - 1].query)]
  }

  /** The changes of one bootstrap chunk; rows that extract to nothing stay off the wire. */
  function ChunkChanges(extract: seq<int> -> seq<int>, corpus: map<nat, seq<int>>, ids: seq<nat>): map<nat, seq<int>> {
    map id | id in ids && id in corpus && ToUnsigned(extract(corpus[id])) != [] :: ToUnsigned(extract(corpus[id]))
  }

  /** A node after one chunk of the scan; no rows means the end of the table. */
  function Scanned(extract: seq<int> -> seq<int>, corpus: map<nat, seq<int>>, node: Node, ids: seq<nat>): Node {
    if ids == [] then node.(phase := Tailing)
    else node.(phase := Scanning(ids[|ids| - 1]), index := node.index + ChunkChanges(extract, corpus, ids))
  }

  /** A node after one answer of the feed. */
  function Served(node: Node, rows: seq<Entry>): Node {
    node.(phase := Tailing, received := node.received + rows, index := Absorb(node.index, rows),
          cursor := if rows == [] then node.cursor else rows[|rows| - 1].id)
  }

  predicate BelowFloor(s: State, after: nat) {
    s.floor.Some? && after < s.floor.value
  }

  function Apply(extract: seq<int> -> seq<int>, s: State, step: Step): State
    requires Enabled(s, step)
  {
    match step
    case Tick(now) => s.(clock := now)
    case CreatePartition(month) => s.(partitions := s.partitions + {month})
    case RecordFloor(month) => s.(floor := RaisedFloor(s, month), recorded := s.recorded + {month})
    case DropPartition(month) =>
      s.(partitions := s.partitions - {month}, log := map id | id in s.log && s.log[id].created.month != month :: s.log[id])
    case Bootstrap(n) =>
      var position := CurrentPosition(s);
      s.(nodes := s.nodes[n := Node(Scanning(0), position, position, [], map[])])
    case ScanChunk(n, limit) =>
      var ids := Page(s.corpus.Keys, s.nodes[n].phase.lastId, limit);
      s.(nodes := s.nodes[n := Scanned(extract, s.corpus, s.nodes[n], ids)])
    case CheckFloor(n) =>
      s.(nodes := s.nodes[n := s.nodes[n].(phase := if BelowFloor(s, s.nodes[n].cursor) then Gone else FloorPassed)])
    case ReadBatch(n, limit) =>
      s.(nodes := s.nodes[n := Served(s.nodes[n], Batch(s, s.nodes[n].cursor, limit))])
    case _ => ApplyTx(extract, s, step)
  }

  // ----- runs -----------------------------------------------------------------

  /** A database as the migration leaves it: any corpus, no changelog yet. */
  predicate Init(s: State) {
    && 1 <= s.nextEntry
    && (forall id :: id in s.corpus ==> 0 < id < s.nextFingerprint)
    && 1 <= s.nextFingerprint
    && s.history == [] && s.log == map[] && s.open == map[] && s.lock == None
    && s.recorded == {} && s.floor == None && s.nodes == map[]
  }

  /** The changelog rows written but not committed yet. */
  function Uncommitted(s: State): seq<Entry> {
    if s.lock.Some? && s.lock.value in s.open then s.open[s.lock.value].rows else []
  }

  /** The next row this consumer needs, if there is one, is no older than the retention
      window at the current clock. */
  predicate WithinRetention(s: State, after: nat) {
    forall e :: e in s.history && after < e.id ==> s.clock.month - RETENTION_MONTHS <= e.created.month
  }

  /** What the environment owes: no transaction still holds a row in a month that
      retention is about to retire, and between the feed's floor check and its read
      retention has not overtaken the consumer. */
  predicate Assumed(s: State, step: Step) {
    match step
    case RecordFloor(month) => forall e :: e in Uncommitted(s) ==> e.created.month != month
    case ReadBatch(n, _) => n in s.nodes ==> !BelowFloor(s, s.nodes[n].cursor) || WithinRetention(s, s.nodes[n].cursor)
    case _ => true
  }

  predicate Possible(extract: seq<int> -> seq<int>, s: State, steps: seq<Step>)
    decreases |steps|
  {
    steps == [] || (Enabled(s, steps[0]) && Possible(extract, Apply(extract, s, steps[0]), steps[1..]))
  }

  predicate Run(extract: seq<int> -> seq<int>, s: State, steps: seq<Step>)
    ensures Run(extract, s, steps) ==> Possible(extract, s, steps)
    decreases |steps|
  {
    steps == [] ||
    (Enabled(s, steps[0]) && Assumed(s, steps[0]) && Run(extract, Apply(extract, s, steps[0]), steps[1..]))
  }

  function Exec(extract: seq<int> -> seq<int>, s: State, steps: seq<Step>): State
    requires Possible(extract, s, steps)
    decreases |steps|
  {
    if steps == [] then s else Exec(extract, Apply(extract, s, steps[0]), steps[1..])
  }
}
