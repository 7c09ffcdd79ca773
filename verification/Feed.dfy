/** The request handlers of acoustid/future/fpindex/feed.py. */
module Feed {
  import opened Hashes
  import opened Pages
  import opened Sets
  import opened Wrappers
  import opened Changelog
  import opened ChangelogSafety
  import opened Replication
  import opened ReplicationTheorems
  import MessagePack
  import Wire

  const INDEX_NAME := "acoustid"
  const GENERATION := 1
  const MAX_ENTRIES := 100000
  const IDLE_RETRY_MS := 1000
  const BUSY_RETRY_MS := 0
  const BOOTSTRAP_CHUNK := 10000
  const MAX_POSITION := 0x7fff_ffff_ffff_ffff

  /** A query parameter: missing, or text that `int()` may or may not accept. */
  datatype Param = Missing | Text(parsed: Option<int>)

  predicate IsNearest(value: nat, n: int, maximum: nat) {
    value <= maximum && forall m: nat :: m <= maximum ==> Distance(value, n) <= Distance(m, n)
  }

  function Distance(x: int, y: int): nat {
    if x < y then y - x else x - y
  }

  /** `_int_param`: a number that is given counts as the nearest one allowed, anything else as
      the default. */
  function IntParam(raw: Param, default: nat, maximum: nat): (value: nat)
    ensures raw == Missing || raw == Text(None) ==> value == default
    ensures raw.Text? && raw.parsed.Some? ==> IsNearest(value, raw.parsed.value, maximum)
  {
    match raw
    case Text(Some(n)) => if n < 0 then 0 else if n <= maximum then n else maximum
    case _ => default
  }

  datatype Answer = NotFound | Expired | Rows(rows: seq<Entry>, retryAfterMs: nat)

  /** `handle_read_changelog`, floor check and read in one go: 404, 410 or 200. */
  function ReadChangelog(s: State, index: string, generation: int, after: Param, max: Param): Answer {
    if index != INDEX_NAME || generation != GENERATION then NotFound
    else
      var position := IntParam(after, 0, MAX_POSITION);
      var limit := IntParam(max, MAX_ENTRIES, MAX_ENTRIES);
      if BelowFloor(s, position) then Expired
      else
        var rows := Batch(s, position, limit);
        Rows(rows, if rows != [] && |rows| == limit then BUSY_RETRY_MS else IDLE_RETRY_MS)
  }

  /** A 200 never lies: its rows are the next of the full history after the position
      asked for, and 410 is answered exactly to positions below the floor. */
  lemma AnswersAreHonest(extract: seq<int> -> seq<int>, s: State, after: Param, max: Param)
    requires Reachable(extract, s)
    ensures
      var position := IntParam(after, 0, MAX_POSITION);
      var answer := ReadChangelog(s, INDEX_NAME, GENERATION, after, max);
      && (answer.Expired? <==> BelowFloor(s, position))
      && (answer.Rows? ==> answer.rows == NextRows(s.history, position, IntParam(max, MAX_ENTRIES, MAX_ENTRIES)))
  {
    var position := IntParam(after, 0, MAX_POSITION);
    if !BelowFloor(s, position) {
      AnswerIsNextRows(extract, s, position, IntParam(max, MAX_ENTRIES, MAX_ENTRIES));
    }
  }

  /** A consumer that needs no row older than the retention window gets rows, not 410. */
  lemma RecentIsAnswered(extract: seq<int> -> seq<int>, s: State, after: Param, max: Param)
    requires Reachable(extract, s)
    requires forall e :: e in s.history && IntParam(after, 0, MAX_POSITION) < e.id ==>
               s.clock.month - RETENTION_MONTHS <= e.created.month
    ensures
      var answer := ReadChangelog(s, INDEX_NAME, GENERATION, after, max);
      && answer.Rows?
      && answer.rows == NextRows(s.history, IntParam(after, 0, MAX_POSITION), IntParam(max, MAX_ENTRIES, MAX_ENTRIES))
  {
    hide Reachable, NextRows, BelowFloor;
    RecentConsumerIsNotRefused(extract, s, IntParam(after, 0, MAX_POSITION));
    AnswersAreHonest(extract, s, after, max);
  }

  /** The retry hint can be trusted: a consumer that asked for at least one row and is
      told to wait has everything that is committed. */
  lemma IdleMeansDrained(extract: seq<int> -> seq<int>, s: State, after: Param, max: Param)
    requires Reachable(extract, s) && 1 <= IntParam(max, MAX_ENTRIES, MAX_ENTRIES)
    ensures
      var position := IntParam(after, 0, MAX_POSITION);
      var answer := ReadChangelog(s, INDEX_NAME, GENERATION, after, max);
      answer.Rows? && answer.retryAfterMs == IDLE_RETRY_MS ==>
        forall e :: e in s.history && position < e.id ==> e in answer.rows
    ensures
      var answer := ReadChangelog(s, INDEX_NAME, GENERATION, after, max);
      answer.Rows? && |answer.rows| < IntParam(max, MAX_ENTRIES, MAX_ENTRIES) ==> answer.retryAfterMs == IDLE_RETRY_MS
  {
    hide Reachable, WriterInv, RetentionInv, NodeInv, IntParam, IsNearest, NextRows, BelowFloor, TableOf, Extracted;
    var position := IntParam(after, 0, MAX_POSITION);
    var limit := IntParam(max, MAX_ENTRIES, MAX_ENTRIES);
    AnswersAreHonest(extract, s, after, max);
    ReachableInv(extract, s);
    SoundTable(extract, s);
    forall e | e in s.history && position < e.id
      ensures |NextRows(s.history, position, limit)| < limit ==> e in NextRows(s.history, position, limit)
    {
      var j :| 0 <= j < |s.history| && s.history[j] == e;
      RowIsNextOrLater(s.history, position, limit, j);
    }
  }

  // ----- the response --------------------------------------------------------------------

  /** `changelog_response` with the unsigned terms of `_read_batch`. */
  function WireEntry(row: Entry): Wire.Entry {
    Wire.Entry(row.id, Wire.Insert(row.fingerprint, Naturals(ToUnsigned(row.query))))
  }

  function WireEntries(rows: seq<Entry>): (es: seq<Wire.Entry>)
    ensures |es| == |rows| && forall i :: 0 <= i < |rows| ==> es[i] == WireEntry(rows[i])
  {
    seq(|rows|, i requires 0 <= i < |rows| => WireEntry(rows[i]))
  }

  /** What the column types allow of a changelog row. */
  ghost predicate StorableRow(row: Entry) {
    Wire.IsU64(row.id) && Wire.IsU64(row.fingerprint) && |row.query| < 0x1_0000_0000
  }

  /** On the wire every term is the stored one modulo 2^32. */
  lemma TermsAreUnsigned(row: Entry)
    ensures
      var hashes := WireEntry(row).change.hashes;
      && WireEntry(row).id == row.id && WireEntry(row).change == Wire.Insert(row.fingerprint, hashes)
      && |hashes| == |row.query|
      && forall i :: 0 <= i < |hashes| ==> hashes[i] == Unsigned(row.query[i]) < TWO_32
    ensures StorableRow(row) ==> Wire.Sendable(WireEntry(row).change)
  {
  }

  lemma BatchIsSendable(s: State, after: nat, limit: nat, retry: nat)
    requires limit <= MAX_ENTRIES && Wire.IsU64(retry) && forall id :: id in s.log ==> StorableRow(s.log[id])
    ensures |Batch(s, after, limit)| <= limit
    ensures Wire.SendableResponse(Wire.ReadResponse(WireEntries(Batch(s, after, limit)), retry))
  {
    hide Wire.Sendable, StorableRow;
    var rows := Batch(s, after, limit);
    var ids := Page(s.log.Keys, after, limit);
    forall e | e in WireEntries(rows)
      ensures Wire.IsU64(e.id) && Wire.Sendable(e.change)
    {
      var i :| 0 <= i < |rows| && WireEntries(rows)[i] == e;
      assert ids[i] in ids && rows[i] == s.log[ids[i]];
      TermsAreUnsigned(rows[i]);
      StorableIds(rows[i]);
    }
  }

  lemma StorableIds(row: Entry)
    requires StorableRow(row)
    ensures Wire.IsU64(row.id)
  {
  }

  /** `handle_read_changelog` from request to bytes: 404 for another lineage, 410 exactly below
      the watermark, and a body that decodes, as a whole and not before, to the next rows of
      the full history with unsigned terms. */
  method ServeChangelog(extract: seq<int> -> seq<int>, s: State, index: string, generation: int, after: Param, max: Param)
    returns (status: int, body: seq<MessagePack.Byte>)
    requires Reachable(extract, s) && forall id :: id in s.log ==> StorableRow(s.log[id])
    ensures status == 404 <==> index != INDEX_NAME || generation != GENERATION
    ensures status == 410 <==> status != 404 && BelowFloor(s, IntParam(after, 0, MAX_POSITION))
    ensures status == 404 || status == 410 ==> body == []
    ensures status in {200, 404, 410}
    ensures
      var position, limit := IntParam(after, 0, MAX_POSITION), IntParam(max, MAX_ENTRIES, MAX_ENTRIES);
      var rows := NextRows(s.history, position, limit);
      status == 200 ==>
        && ReadsAs(body, WireEntries(rows), if rows != [] && |rows| == limit then BUSY_RETRY_MS else IDLE_RETRY_MS)
        && forall k: nat :: k < |body| ==> MessagePack.Decode(body[..k]) == MessagePack.More
  {
    hide Reachable, Batch, NextRows, IntParam, WireEntries, Wire.SendableResponse, BelowFloor;
    var position, limit := IntParam(after, 0, MAX_POSITION), IntParam(max, MAX_ENTRIES, MAX_ENTRIES);
    var answer := ReadChangelog(s, index, generation, after, max);
    match answer {
      case NotFound => return 404, [];
      case Expired => return 410, [];
      case Rows(rows, retry) =>
        AnswersAreHonest(extract, s, after, max);
        AtMostMaximum(max);
        BatchIsSendable(s, position, limit, retry);
        var response := Wire.ReadResponse(WireEntries(rows), retry);
        Wire.ResponseRoundTrip(response, []);
        status, body := 200, MessagePack.Encode(Wire.ResponseValue(response));
        assert body + [] == body;
    }
  }

  /** A reader of the body gets these entries and this retry hint. */
  ghost predicate ReadsAs(body: seq<MessagePack.Byte>, entries: seq<Wire.Entry>, retry: nat) {
    exists v :: MessagePack.Decode(body) == MessagePack.Done(v, []) && Wire.ResponseOf(v) == Some(Wire.ReadResponse(entries, retry))
  }

  lemma AtMostMaximum(max: Param)
    ensures IntParam(max, MAX_ENTRIES, MAX_ENTRIES) <= MAX_ENTRIES
  {
  }

  // ----- the bootstrap stream ------------------------------------------------------------

  /** What one fingerprint brings, if anything. */
  function ChangeFor(extract: seq<int> -> seq<int>, corpus: map<nat, seq<int>>, id: nat): seq<Wire.Change>
    requires id in corpus
  {
    var query := Naturals(ToUnsigned(extract(corpus[id])));
    if query != [] then [Wire.Insert(id, query)] else []
  }

  /** The changes of some fingerprints, those with nothing to index left out. */
  function Changes(extract: seq<int> -> seq<int>, corpus: map<nat, seq<int>>, ids: seq<nat>): seq<Wire.Change>
    requires forall id :: id in ids ==> id in corpus
  {
    if ids == [] then []
    else ChangeFor(extract, corpus, ids[0]) + Changes(extract, corpus, ids[1..])
  }

  function Naturals(ns: seq<int>): (r: seq<nat>) {
    seq(|ns|, i requires 0 <= i < |ns| => if ns[i] < 0 then 0 else ns[i])
  }

  /** An insert of one of the fingerprints, with its terms as they go on the wire, if any. */
  ghost predicate IsDocument(extract: seq<int> -> seq<int>, corpus: map<nat, seq<int>>, ids: seq<nat>, c: Wire.Change) {
    && c.Insert? && c.id in ids && c.id in corpus && c.hashes != []
    && |c.hashes| == |extract(corpus[c.id])|
    && forall k :: 0 <= k < |c.hashes| ==> c.hashes[k] == Unsigned(extract(corpus[c.id])[k])
  }

  /** The changes are the documents of those fingerprints that have any terms, each once and in
      the order of the ids. */
  ghost predicate AreDocuments(extract: seq<int> -> seq<int>, corpus: map<nat, seq<int>>, ids: seq<nat>, cs: seq<Wire.Change>) {
    && (forall i :: 0 <= i < |cs| ==> IsDocument(extract, corpus, ids, cs[i]))
    && (forall i, j :: 0 <= i < j < |cs| ==> cs[i].id < cs[j].id)
    && (forall id :: id in ids && id in corpus && extract(corpus[id]) != [] ==> HasChange(cs, id))
  }

  ghost predicate HasChange(cs: seq<Wire.Change>, id: nat) {
    exists i :: 0 <= i < |cs| && cs[i].id == id
  }

  lemma {:induction false} ChangesAreDocuments(extract: seq<int> -> seq<int>, corpus: map<nat, seq<int>>, ids: seq<nat>)
    requires Increasing(ids) && forall id :: id in ids ==> id in corpus
    ensures AreDocuments(extract, corpus, ids, Changes(extract, corpus, ids))
  {
    if ids != [] {
      ChangesAreDocuments(extract, corpus, ids[1..]);
      ChangeIsDocument(extract, corpus, ids);
      hide Changes, ChangeFor;
      OneMoreDocument(extract, corpus, ids, ChangeFor(extract, corpus, ids[0]), Changes(extract, corpus, ids[1..]));
    }
  }

  lemma ChangeIsDocument(extract: seq<int> -> seq<int>, corpus: map<nat, seq<int>>, ids: seq<nat>)
    requires ids != [] && ids[0] in corpus && forall id :: id in ids ==> id in corpus
    ensures
      var c := ChangeFor(extract, corpus, ids[0]);
      && (if extract(corpus[ids[0]]) == [] then c == []
          else |c| == 1 && c[0].id == ids[0] && IsDocument(extract, corpus, ids, c[0]))
      && Changes(extract, corpus, ids) == c + Changes(extract, corpus, ids[1..])
  {
  }

  lemma OneMoreDocument(extract: seq<int> -> seq<int>, corpus: map<nat, seq<int>>, ids: seq<nat>,
                        first: seq<Wire.Change>, more: seq<Wire.Change>)
    requires ids != [] && ids[0] in corpus && Increasing(ids) && AreDocuments(extract, corpus, ids[1..], more)
    requires if extract(corpus[ids[0]]) == [] then first == []
             else |first| == 1 && first[0].id == ids[0] && IsDocument(extract, corpus, ids, first[0])
    ensures AreDocuments(extract, corpus, ids, first + more)
  {
    hide IsDocument, HasChange;
    var cs := first + more;
    RestAreDocuments(extract, corpus, ids, more);
    forall id | id in ids && id in corpus && extract(corpus[id]) != []
      ensures HasChange(cs, id)
    {
      ChangeStays(first, more, id);
      assert id == ids[0] || id in ids[1..];
    }
  }

  lemma RestAreDocuments(extract: seq<int> -> seq<int>, corpus: map<nat, seq<int>>, ids: seq<nat>, more: seq<Wire.Change>)
    requires ids != [] && Increasing(ids) && forall i :: 0 <= i < |more| ==> IsDocument(extract, corpus, ids[1..], more[i])
    ensures forall i :: 0 <= i < |more| ==> IsDocument(extract, corpus, ids, more[i]) && ids[0] < more[i].id
  {
    forall i | 0 <= i < |more|
      ensures IsDocument(extract, corpus, ids, more[i]) && ids[0] < more[i].id
    {
      var k :| 0 <= k < |ids[1..]| && ids[1..][k] == more[i].id;
      assert ids[1 + k] == more[i].id;
    }
  }

  lemma ChangeStays(first: seq<Wire.Change>, more: seq<Wire.Change>, id: nat)
    ensures HasChange(more, id) ==> HasChange(first + more, id)
    ensures first != [] && first[0].id == id ==> HasChange(first + more, id)
  {
    if HasChange(more, id) {
      var i :| 0 <= i < |more| && more[i].id == id;
      assert (first + more)[|first| + i].id == id;
    }
    if first != [] && first[0].id == id {
      assert (first + more)[0].id == id;
    }
  }

  lemma {:induction false} ChangesConcat(extract: seq<int> -> seq<int>, corpus: map<nat, seq<int>>, a: seq<nat>, b: seq<nat>)
    requires forall id :: id in a + b ==> id in corpus
    requires forall id :: id in a || id in b ==> id in corpus
    ensures Changes(extract, corpus, a + b) == Changes(extract, corpus, a) + Changes(extract, corpus, b)
  {
    if a == [] {
      assert a + b == b;
    } else {
      hide ChangeFor;
      assert (a + b)[0] == a[0];
      assert (a + b)[1..] == a[1..] + b;
      ChangesConcat(extract, corpus, a[1..], b);
    }
  }

  lemma NoChanges(extract: seq<int> -> seq<int>, corpus: map<nat, seq<int>>)
    ensures Changes(extract, corpus, []) == []
  {
  }

  lemma OneChange(extract: seq<int> -> seq<int>, corpus: map<nat, seq<int>>, id: nat)
    requires id in corpus
    ensures
      var query := Naturals(ToUnsigned(extract(corpus[id])));
      && Changes(extract, corpus, [id]) == (if query != [] then [Wire.Insert(id, query)] else [])
      && (Storable(extract, corpus) ==> Wire.Sendable(Wire.Insert(id, query)))
  {
    assert [id][1..] == [];
    if Storable(extract, corpus) {
      TermsFit(extract(corpus[id]));
    }
  }

  lemma TermsFit(terms: seq<int>)
    ensures |Naturals(ToUnsigned(terms))| == |terms| && forall n :: n in Naturals(ToUnsigned(terms)) ==> Wire.IsU64(n)
  {
  }

  predicate AnyAbove(ids: set<nat>, after: nat) {
    exists y :: y in ids && after < y
  }

  lemma PageUnfolds(ids: set<nat>, after: nat, k: nat)
    ensures AnyAbove(ids, after) && 0 < k ==>
              Page(ids, after, k) == [Next(ids, after)] + Page(ids, Next(ids, after), k - 1)
    ensures !AnyAbove(ids, after) || k == 0 ==> Page(ids, after, k) == []
  {
  }

  function LastOr(p: seq<nat>, default: nat): nat {
    if p == [] then default else p[|p| - 1]
  }

  /** Two pages in a row are one longer page. */
  lemma {:induction false} PagesJoin(ids: set<nat>, after: nat, k: nat, m: nat)
    ensures
      var p := Page(ids, after, k);
      p + Page(ids, LastOr(p, after), m) == Page(ids, after, |p| + m)
    decreases k
  {
    var p := Page(ids, after, k);
    PageUnfolds(ids, after, k);
    hide Page, IsPage, AnyAbove;
    if p == [] {
      assert p + Page(ids, after, m) == Page(ids, after, m);
    } else {
      var x := Next(ids, after);
      var rest := Page(ids, x, k - 1);
      PagesJoin(ids, x, k - 1, m);
      PageUnfolds(ids, after, |p| + m);
      assert p == [x] + rest;
      assert LastOr(p, after) == LastOr(rest, x);
      var q := Page(ids, LastOr(p, after), m);
      assert p + q == [x] + (rest + q);
    }
  }

  /** All ids of a table above a position, in order. */
  function AllAfter(ids: set<nat>, after: nat): seq<nat> {
    Page(ids, after, |ids|)
  }

  function Members(p: seq<nat>): set<nat> {
    set x | x in p
  }

  lemma PageIsShort(ids: set<nat>, after: nat, n: nat)
    ensures |Page(ids, after, n)| <= |ids|
    ensures |ids| <= n ==> forall x :: x in ids && after < x ==> x in Page(ids, after, n)
  {
    var p := Page(ids, after, n);
    IncreasingHasItsLength(p);
    SubsetIsNoLarger(Members(p), ids);
    forall x | x in ids && after < x && |ids| <= n
      ensures x in p
    {
      SubsetIsNoLarger(Members(p) + {x}, ids);
    }
  }

  lemma {:induction false} IncreasingHasItsLength(p: seq<nat>)
    requires Increasing(p)
    ensures |Members(p)| == |p|
  {
    if p != [] {
      var init, last := p[..|p| - 1], p[|p| - 1];
      IncreasingHasItsLength(init);
      assert p == init + [last];
      assert Members(p) == Members(init) + {last};
    }
  }

  /** What the column types allow: 64-bit ids, arrays of fewer than 2^32 terms. */
  ghost predicate Storable(extract: seq<int> -> seq<int>, corpus: map<nat, seq<int>>) {
    forall id :: id in corpus ==> Wire.IsU64(id) && |extract(corpus[id])| < 0x1_0000_0000
  }

  /** The rows of one chunk: the changes they make and the id to go on from. */
  method ScanRows(extract: seq<int> -> seq<int>, corpus: map<nat, seq<int>>, ids: seq<nat>)
    returns (changes: seq<Wire.Change>, lastId: nat)
    requires ids != [] && forall id :: id in ids ==> id in corpus
    ensures changes == Changes(extract, corpus, ids) && lastId == ids[|ids| - 1]
    ensures |changes| <= |ids|
    ensures Storable(extract, corpus) ==> forall c :: c in changes ==> Wire.Sendable(c)
  {
    hide Changes, ChangeFor, Storable, Wire.Sendable;
    changes, lastId := [], 0;
    NoChanges(extract, corpus);
    for i := 0 to |ids|
      invariant |changes| <= i
      invariant Storable(extract, corpus) ==> forall c :: c in changes ==> Wire.Sendable(c)
      invariant changes == Changes(extract, corpus, ids[..i])
      invariant 0 < i ==> lastId == ids[i - 1]
    {
      var query := Naturals(ToUnsigned(extract(corpus[ids[i]])));
      assert ids[..i + 1] == ids[..i] + [ids[i]];
      ChangesConcat(extract, corpus, ids[..i], [ids[i]]);
      OneChange(extract, corpus, ids[i]);
      if query != [] {
        changes := changes + [Wire.Insert(ids[i], query)];
      }
      lastId := ids[i];
    }
    assert ids[..|ids|] == ids;
  }

  /** The scan of `handle_bootstrap` over a table that does not change: chunk by chunk
      until one comes back empty, arrays without changes kept off the wire, and an empty
      array to end with. The chunk size shows in the framing only. */
  method StreamCorpus(extract: seq<int> -> seq<int>, corpus: map<nat, seq<int>>, chunkParam: Param)
    returns (arrays: seq<seq<Wire.Change>>)
    ensures Wire.Terminated(arrays)
    ensures forall id :: id in AllAfter(corpus.Keys, 0) ==> id in corpus
    ensures Wire.Flatten(arrays) == Changes(extract, corpus, AllAfter(corpus.Keys, 0))
    ensures Storable(extract, corpus) ==> forall a :: a in arrays ==> Wire.SendableArray(a)
  {
    hide Page, Changes, Streamed, AllAfter, Storable, IntParam, Wire.Flatten, Wire.Terminated, Wire.SendableArray;
    var requested := IntParam(chunkParam, BOOTSTRAP_CHUNK, MAX_ENTRIES);
    var chunk := if requested < 1 then 1 else requested;
    var lastId := 0;
    arrays := [];
    ghost var scanned: seq<nat> := [];
    NothingYet(extract, corpus);
    while true
      invariant Streamed(extract, corpus, arrays, scanned) && lastId == LastOr(scanned, 0)
      decreases |corpus.Keys| - |scanned|
    {
      var ids := Page(corpus.Keys, lastId, chunk);
      if ids == [] {
        break;
      }
      var changes;
      changes, lastId := ScanRows(extract, corpus, ids);
      ChunkStreamed(extract, corpus, arrays, scanned, ids, chunk, changes);
      if changes != [] {
        arrays := arrays + [changes];
      }
      scanned := scanned + ids;
    }
    StreamIsOver(extract, corpus, arrays, scanned, chunk);
    arrays := arrays + [[]];
  }

  /** `handle_bootstrap` from request to bytes: a reader of the whole response has the
      position and every indexable fingerprint in id order, a reader of any less knows
      that something is missing. */
  method ServeBootstrap(extract: seq<int> -> seq<int>, s: State, index: string, generation: int, chunk: Param)
    returns (status: int, body: seq<MessagePack.Byte>)
    requires Storable(extract, s.corpus) && Wire.IsU64(CurrentPosition(s))
    ensures status == if index == INDEX_NAME && generation == GENERATION then 200 else 404
    ensures status == 404 ==> body == []
    ensures forall id :: id in AllAfter(s.corpus.Keys, 0) ==> id in s.corpus
    ensures status == 200 ==>
              Wire.ReadBootstrap(body) ==
              Wire.Complete(CurrentPosition(s), Changes(extract, s.corpus, AllAfter(s.corpus.Keys, 0)), [])
    ensures forall k: nat :: k < |body| ==> Wire.ReadBootstrap(body[..k]) == Wire.Incomplete
  {
    hide Wire.ReadBootstrap, Wire.EncodeBootstrap, Wire.Flatten, Wire.Terminated, Changes, AllAfter, CurrentPosition;
    AllAreThere(s.corpus);
    if index != INDEX_NAME || generation != GENERATION {
      return 404, [];
    }
    status := 200;
    var position := CurrentPosition(s);
    var arrays := StreamCorpus(extract, s.corpus, chunk);
    body := Wire.EncodeBootstrap(position, arrays);
    Wire.BootstrapRoundTrip(position, arrays, []);
    assert body + [] == body;
    forall k: nat | k < |body|
      ensures Wire.ReadBootstrap(body[..k]) == Wire.Incomplete
    {
      Wire.CutBootstrapIsIncomplete(position, arrays, k);
    }
  }

  /** The arrays so far are the changes of the ids so far, which are the first of the table. */
  ghost predicate Streamed(extract: seq<int> -> seq<int>, corpus: map<nat, seq<int>>,
                           arrays: seq<seq<Wire.Change>>, scanned: seq<nat>) {
    && (forall a :: a in arrays ==> a != [])
    && (Storable(extract, corpus) ==> forall a :: a in arrays ==> Wire.SendableArray(a))
    && (forall id :: id in scanned ==> id in corpus)
    && Wire.Flatten(arrays) == Changes(extract, corpus, scanned)
    && scanned == Page(corpus.Keys, 0, |scanned|)
  }

  lemma AllAreThere(corpus: map<nat, seq<int>>)
    ensures forall id :: id in AllAfter(corpus.Keys, 0) ==> id in corpus
  {
  }

  lemma NothingYet(extract: seq<int> -> seq<int>, corpus: map<nat, seq<int>>)
    ensures Streamed(extract, corpus, [], [])
  {
    assert Page(corpus.Keys, 0, 0) == [];
  }

  /** One chunk more. */
  lemma ChunkStreamed(extract: seq<int> -> seq<int>, corpus: map<nat, seq<int>>,
                      arrays: seq<seq<Wire.Change>>, scanned: seq<nat>,
                      ids: seq<nat>, chunk: nat, changes: seq<Wire.Change>)
    requires Streamed(extract, corpus, arrays, scanned) && chunk <= MAX_ENTRIES
    requires ids == Page(corpus.Keys, LastOr(scanned, 0), chunk) && ids != []
    requires forall id :: id in ids ==> id in corpus
    requires changes == Changes(extract, corpus, ids) && |changes| <= |ids|
    requires Storable(extract, corpus) ==> forall c :: c in changes ==> Wire.Sendable(c)
    ensures Streamed(extract, corpus, if changes == [] then arrays else arrays + [changes], scanned + ids)
    ensures |scanned| < |scanned + ids| <= |corpus.Keys| && LastOr(scanned + ids, 0) == ids[|ids| - 1]
  {
    hide Page, Changes, Wire.Flatten, Storable, Wire.Sendable;
    ScanExtends(corpus.Keys, scanned, ids, chunk);
    ChangesConcat(extract, corpus, scanned, ids);
    FlattenSnoc(arrays, changes);
    assert Wire.Flatten(arrays) + [] == Wire.Flatten(arrays);
  }

  /** Nothing is left, and the empty array goes out. */
  lemma StreamIsOver(extract: seq<int> -> seq<int>, corpus: map<nat, seq<int>>,
                     arrays: seq<seq<Wire.Change>>, scanned: seq<nat>, chunk: nat)
    requires Streamed(extract, corpus, arrays, scanned)
    requires chunk > 0 && Page(corpus.Keys, LastOr(scanned, 0), chunk) == []
    ensures Wire.Terminated(arrays + [[]])
    ensures forall id :: id in AllAfter(corpus.Keys, 0) ==> id in corpus
    ensures Wire.Flatten(arrays + [[]]) == Changes(extract, corpus, AllAfter(corpus.Keys, 0))
    ensures Storable(extract, corpus) ==> forall a :: a in arrays + [[]] ==> Wire.SendableArray(a)
  {
    NothingAfter(corpus.Keys, LastOr(scanned, 0), chunk);
    hide Page, Changes, AllAfter, Wire.Flatten, Storable, Wire.SendableArray, Wire.Terminated;
    ScanIsOver(corpus.Keys, scanned);
    FlattenSnoc(arrays, []);
    EmptyEnds(arrays);
  }

  lemma EmptyEnds(arrays: seq<seq<Wire.Change>>)
    requires forall a :: a in arrays ==> a != []
    ensures Wire.Terminated(arrays + [[]]) && Wire.SendableArray([])
  {
    assert forall i :: 0 <= i < |arrays| ==> arrays[i] in arrays;
  }

  lemma NothingAfter(table: set<nat>, after: nat, chunk: nat)
    requires chunk > 0 && Page(table, after, chunk) == []
    ensures forall x :: x in table ==> x <= after
  {
    PageUnfolds(table, after, chunk);
  }

  lemma ScanExtends(table: set<nat>, scanned: seq<nat>, ids: seq<nat>, chunk: nat)
    requires scanned == Page(table, 0, |scanned|)
    requires ids == Page(table, LastOr(scanned, 0), chunk) && ids != []
    ensures scanned + ids == Page(table, 0, |scanned + ids|)
    ensures |scanned + ids| <= |table|
  {
    hide Page, IsPage;
    var after := LastOr(scanned, 0);
    PagesJoin(table, after, chunk, 0);
    PageUnfolds(table, LastOr(ids, after), 0);
    assert ids + [] == ids;
    PagesJoin(table, 0, |scanned|, |ids|);
    PageIsShort(table, 0, |scanned + ids|);
  }

  lemma ScanIsOver(table: set<nat>, scanned: seq<nat>)
    requires scanned == Page(table, 0, |scanned|)
    requires forall x :: x in table ==> x <= LastOr(scanned, 0)
    ensures scanned == AllAfter(table, 0)
  {
    PageIsShort(table, 0, |scanned|);
    forall x | x in table && 0 < x
      ensures x in scanned
    {
      assert scanned != [] && scanned[|scanned| - 1] in scanned;
    }
    assert IsPage(table, 0, |table|, scanned);
    PageIsUnique(table, 0, |table|, scanned, AllAfter(table, 0));
  }

  lemma {:induction false} FlattenSnoc(arrays: seq<seq<Wire.Change>>, a: seq<Wire.Change>)
    ensures Wire.Flatten(arrays + [a]) == Wire.Flatten(arrays) + a
  {
    if arrays == [] {
      assert arrays + [a] == [a] && [a][1..] == [];
    } else {
      assert (arrays + [a])[1..] == arrays[1..] + [a];
      FlattenSnoc(arrays[1..], a);
    }
  }
}
