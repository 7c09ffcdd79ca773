/** The queue of submissions, acoustid/data/submission.py, under concurrent importers. Every
    importer is one transaction of `import_queued_submissions`: it claims rows of
    pending_submission (FOR UPDATE SKIP LOCKED), fetches the submissions that are not handled,
    tries them one by one, and deletes the claimed rows it has not been refused. */
module Ingest {
  import opened Wrappers

  /** A row of submission; its simhash and MBID name the advisory locks. */
  datatype Submission = Submission(handled: bool, hash: int, mbid: Option<int>)

  datatype Key = FingerprintKey(hash: int) | MbidKey(mbid: int)

  /** What a transaction knows and has written so far. */
  datatype Importer = Importer(
    claimed: set<nat>,        // submission_ids, as selected
    fetched: bool,
    todo: set<nat>,           // submissions still to try
    refused: set<nat>,        // removed from submission_ids again
    handled: set<nat>,
    results: multiset<nat>)   // submission ids of its submission_result rows

  /** The committed tables, and the open transactions. */
  datatype State = State(
    submissions: map<nat, Submission>,
    pending: set<nat>,
    results: multiset<nat>,
    importers: map<nat, Importer>,
    locks: map<Key, nat>)

  /** `imports` tells a submission that gets a result from one that is skipped. */
  datatype Step =
    | Submit(id: nat, hash: int, mbid: Option<int>)
    | Claim(who: nat, ids: set<nat>)
    | Fetch(who: nat)
    | Try(who: nat, id: nat, imports: bool)
    | Commit(who: nat)
    | Abort(who: nat)

  const INITIAL := State(map[], {}, multiset{}, map[], map[])

  predicate IsFree(s: State, key: Key, who: nat) {
    key in s.locks ==> s.locks[key] == who
  }

  predicate IsClaimed(s: State, id: nat) {
    exists v :: v in s.importers && id in s.importers[v].claimed
  }

  predicate Enabled(s: State, step: Step) {
    match step
    case Submit(id, _, _) => id !in s.submissions
    case Claim(who, ids) => who !in s.importers && ids <= s.pending && forall id :: id in ids ==> !IsClaimed(s, id)
    case Fetch(who) => who in s.importers && !s.importers[who].fetched
    case Try(who, id, _) => who in s.importers && s.importers[who].fetched && id in s.importers[who].todo && id in s.submissions
    case Commit(who) => who in s.importers && s.importers[who].fetched && s.importers[who].todo == {}
    case Abort(who) => who in s.importers
  }

  /** `import_submission` up to its first writes: the two advisory locks. */
  function Locked(s: State, who: nat, id: nat): (bool, map<Key, nat>)
    requires id in s.submissions
  {
    var first := FingerprintKey(s.submissions[id].hash);
    if !IsFree(s, first, who) then (false, s.locks)
    else
      var locks := s.locks[first := who];
      if s.submissions[id].mbid.None? then (true, locks)
      else
        var second := MbidKey(s.submissions[id].mbid.value);
        if IsFree(s, second, who) then (true, locks[second := who]) else (false, locks)
  }

  function Released(locks: map<Key, nat>, who: nat): map<Key, nat> {
    map k | k in locks && locks[k] != who :: locks[k]
  }

  function Handled(submissions: map<nat, Submission>, ids: set<nat>): map<nat, Submission> {
    map id | id in submissions :: if id in ids then submissions[id].(handled := true) else submissions[id]
  }

  function Unhandled(submissions: map<nat, Submission>, ids: set<nat>): set<nat> {
    set id | id in ids && id in submissions && !submissions[id].handled
  }

  function Apply(s: State, step: Step): State
    requires Enabled(s, step)
  {
    match step
    case Submit(id, hash, mbid) =>
      s.(submissions := s.submissions[id := Submission(false, hash, mbid)], pending := s.pending + {id})
    case Claim(who, ids) => s.(importers := s.importers[who := Importer(ids, false, {}, {}, {}, multiset{})])
    case Fetch(who) =>
      var w := s.importers[who];
      s.(importers := s.importers[who := w.(fetched := true, todo := Unhandled(s.submissions, w.claimed))])
    case Try(who, id, imports) =>
      var w := s.importers[who].(todo := s.importers[who].todo - {id});
      var (ok, locks) := Locked(s, who, id);
      s.(locks := locks,
         importers := s.importers[who :=
           if !ok then w.(refused := w.refused + {id})
           else w.(handled := w.handled + {id}, results := if imports then w.results + multiset{id} else w.results)])
    case Commit(who) =>
      var w := s.importers[who];
      State(Handled(s.submissions, w.handled), s.pending - (w.claimed - w.refused), s.results + w.results,
            s.importers - {who}, Released(s.locks, who))
    case Abort(who) => s.(importers := s.importers - {who}, locks := Released(s.locks, who))
  }

  // ----- invariant ----------------------------------------------------------------------

  /** What the committed tables promise: a submission is pending exactly when it is unhandled,
      and has at most one result, and none before it is handled. */
  ghost predicate TablesInv(s: State) {
    && (forall id :: id in s.pending <==> id in s.submissions && !s.submissions[id].handled)
    && (forall id :: s.results[id] <= 1)
    && (forall id :: id in s.results ==> id in s.submissions && s.submissions[id].handled)
  }

  ghost predicate ImporterInv(s: State, who: nat)
    requires who in s.importers
  {
    var w := s.importers[who];
    && w.claimed <= s.pending
    && w.todo !! w.refused && w.todo !! w.handled && w.refused !! w.handled
    && (if w.fetched then w.claimed == w.todo + w.refused + w.handled else w.todo + w.refused + w.handled == {})
    && (forall id :: w.results[id] <= 1)
    && (forall id :: id in w.results ==> id in w.handled)
    && (forall id :: id in w.handled ==> id in s.submissions && HoldsKeys(s, who, id))
  }

  ghost predicate HoldsKeys(s: State, who: nat, id: nat)
    requires id in s.submissions
  {
    && FingerprintKey(s.submissions[id].hash) in s.locks && s.locks[FingerprintKey(s.submissions[id].hash)] == who
    && (s.submissions[id].mbid.Some? ==>
          MbidKey(s.submissions[id].mbid.value) in s.locks && s.locks[MbidKey(s.submissions[id].mbid.value)] == who)
  }

  ghost predicate ClaimsApart(s: State) {
    forall v, w :: v in s.importers && w in s.importers && v != w ==> s.importers[v].claimed !! s.importers[w].claimed
  }

  /** A lock is held by a transaction that is open. */
  ghost predicate LocksInv(s: State) {
    forall k :: k in s.locks ==> s.locks[k] in s.importers
  }

  ghost predicate Inv(s: State) {
    && TablesInv(s) && ClaimsApart(s) && LocksInv(s)
    && forall who :: who in s.importers ==> ImporterInv(s, who)
  }

  lemma SubmitKeepsInv(s: State, step: Step)
    requires Inv(s) && step.Submit? && Enabled(s, step)
    ensures Inv(Apply(s, step))
  {
    hide ImporterInv;
    var s' := Apply(s, step);
    forall who | who in s'.importers
      ensures ImporterInv(s', who)
    {
      SubmittedInv(s, step, who);
    }
  }

  lemma SubmittedInv(s: State, step: Step, who: nat)
    requires TablesInv(s) && step.Submit? && Enabled(s, step) && who in s.importers && ImporterInv(s, who)
    ensures ImporterInv(Apply(s, step), who)
  {
    hide TablesInv;
  }

  lemma ClaimKeepsInv(s: State, step: Step)
    requires Inv(s) && step.Claim? && Enabled(s, step)
    ensures Inv(Apply(s, step))
  {
    hide ImporterInv, TablesInv, IsClaimed;
    var s' := Apply(s, step);
    ClaimIsApart(s, step);
    FreshInv(s, step);
    forall who | who in s'.importers
      ensures ImporterInv(s', who)
    {
      if who != step.who {
        OthersStay(s, s', who);
      }
    }
    SameTables(s, s');
  }

  lemma ClaimIsApart(s: State, step: Step)
    requires step.Claim? && Enabled(s, step)
    ensures forall v :: v in s.importers ==> s.importers[v].claimed !! step.ids
  {
    forall v | v in s.importers
      ensures s.importers[v].claimed !! step.ids
    {
      assert forall id :: id in step.ids ==> !IsClaimed(s, id);
    }
  }

  lemma FreshInv(s: State, step: Step)
    requires step.Claim? && Enabled(s, step)
    ensures ImporterInv(Apply(s, step), step.who)
  {
  }

  /** A step of another importer that takes no locks away and leaves the tables alone. */
  lemma OthersStay(s: State, s': State, who: nat)
    requires who in s.importers && who in s'.importers && s'.importers[who] == s.importers[who] && ImporterInv(s, who)
    requires s'.submissions == s.submissions && s'.pending == s.pending
    requires forall k :: k in s.locks ==> k in s'.locks && s'.locks[k] == s.locks[k]
    ensures ImporterInv(s', who)
  {
    hide HoldsKeys;
    KeysAreKept(s, s', who, s.importers[who].handled);
  }

  lemma FetchKeepsInv(s: State, step: Step)
    requires Inv(s) && step.Fetch? && Enabled(s, step)
    ensures Inv(Apply(s, step))
  {
    hide ImporterInv, TablesInv, Unhandled;
    var s' := Apply(s, step);
    assert ImporterInv(s, step.who);
    FetchedInv(s, step);
    forall v | v in s'.importers
      ensures ImporterInv(s', v)
    {
      if v != step.who {
        OthersStay(s, s', v);
      }
    }
    SameTables(s, s');
  }

  lemma FetchedInv(s: State, step: Step)
    requires TablesInv(s) && step.Fetch? && Enabled(s, step) && ImporterInv(s, step.who)
    ensures ImporterInv(Apply(s, step), step.who)
  {
    hide HoldsKeys, TablesInv, Unhandled;
    ClaimedAreUnhandled(s, step.who);
    KeysAreKept(s, Apply(s, step), step.who, s.importers[step.who].handled);
  }

  lemma ClaimedAreUnhandled(s: State, who: nat)
    requires TablesInv(s) && who in s.importers && ImporterInv(s, who)
    ensures Unhandled(s.submissions, s.importers[who].claimed) == s.importers[who].claimed
  {
  }

  /** Taking locks takes none away, and the new ones are the importer's. */
  lemma LocksGrow(s: State, who: nat, id: nat)
    requires id in s.submissions
    ensures forall k :: k in Locked(s, who, id).1 ==> k in s.locks || Locked(s, who, id).1[k] == who
    ensures forall k :: k in s.locks ==> k in Locked(s, who, id).1 && Locked(s, who, id).1[k] == s.locks[k]
    ensures Locked(s, who, id).0 ==> HoldsKeys(s.(locks := Locked(s, who, id).1), who, id)
  {
  }

  lemma KeysAreKept(s: State, s': State, who: nat, ids: set<nat>)
    requires s'.submissions == s.submissions && forall k :: k in s.locks ==> k in s'.locks && s'.locks[k] == s.locks[k]
    requires forall id :: id in ids ==> id in s.submissions && HoldsKeys(s, who, id)
    ensures forall id :: id in ids ==> HoldsKeys(s', who, id)
  {
  }

  lemma TryKeepsInv(s: State, step: Step)
    requires Inv(s) && step.Try? && Enabled(s, step)
    ensures Inv(Apply(s, step))
  {
    hide Locked, ImporterInv, TablesInv;
    var s' := Apply(s, step);
    assert ImporterInv(s, step.who);
    LocksGrow(s, step.who, step.id);
    TriedInv(s, step);
    forall v | v in s'.importers
      ensures ImporterInv(s', v)
    {
      if v != step.who {
        OthersStay(s, s', v);
      }
    }
    SameTables(s, s');
    assert LocksInv(s');
  }

  lemma TriedInv(s: State, step: Step)
    requires step.Try? && Enabled(s, step) && ImporterInv(s, step.who)
    ensures ImporterInv(Apply(s, step), step.who)
  {
    hide HoldsKeys, Locked;
    var s', who := Apply(s, step), step.who;
    LocksGrow(s, who, step.id);
    KeysAreKept(s, s', who, s.importers[who].handled);
    if Locked(s, who, step.id).0 {
      SameLocksSameKeys(s.(locks := s'.locks), s', who, step.id);
    }
  }

  lemma SameLocksSameKeys(s: State, s': State, who: nat, id: nat)
    requires s'.submissions == s.submissions && s'.locks == s.locks && id in s.submissions && HoldsKeys(s, who, id)
    ensures HoldsKeys(s', who, id)
  {
  }

  lemma SameTables(s: State, s': State)
    requires TablesInv(s) && s'.submissions == s.submissions && s'.pending == s.pending && s'.results == s.results
    ensures TablesInv(s')
  {
  }

  lemma CommitKeepsInv(s: State, step: Step)
    requires Inv(s) && step.Commit? && Enabled(s, step)
    ensures Inv(Apply(s, step))
  {
    hide ImporterInv, TablesInv, Released, Handled;
    var s' := Apply(s, step);
    assert ImporterInv(s, step.who);
    CommittedTables(s, step);
    LocksEndWithTheirHolder(s, step);
    forall who | who in s'.importers
      ensures ImporterInv(s', who)
    {
      assert ImporterInv(s, who) && s.importers[who].claimed !! s.importers[step.who].claimed;
      OthersSurviveCommit(s, step, who);
    }
  }

  lemma CommittedTables(s: State, step: Step)
    requires TablesInv(s) && step.Commit? && Enabled(s, step) && ImporterInv(s, step.who)
    ensures TablesInv(Apply(s, step))
  {
    hide HoldsKeys, Released;
    var w := s.importers[step.who];
    assert w.claimed - w.refused == w.handled;
  }

  lemma OthersSurviveCommit(s: State, step: Step, who: nat)
    requires step.Commit? && Enabled(s, step) && who in s.importers && who != step.who && ImporterInv(s, who)
    requires s.importers[who].claimed !! s.importers[step.who].claimed
    ensures ImporterInv(Apply(s, step), who)
  {
    hide HoldsKeys;
    KeysSurviveRelease(s, Apply(s, step), step.who, who, s.importers[who].handled);
  }

  /** What another importer holds, it still holds when this one's locks are released. */
  lemma KeysSurviveRelease(s: State, s': State, gone: nat, who: nat, ids: set<nat>)
    requires who != gone && s'.locks == Released(s.locks, gone)
    requires forall id :: id in ids ==> id in s.submissions && HoldsKeys(s, who, id)
    requires forall id :: id in s.submissions ==>
               id in s'.submissions && s'.submissions[id].(handled := s.submissions[id].handled) == s.submissions[id]
    ensures forall id :: id in ids ==> HoldsKeys(s', who, id)
  {
  }

  lemma AbortKeepsInv(s: State, step: Step)
    requires Inv(s) && step.Abort? && Enabled(s, step)
    ensures Inv(Apply(s, step))
  {
    hide ImporterInv, TablesInv, Released;
    var s' := Apply(s, step);
    LocksEndWithTheirHolder(s, step);
    forall who | who in s'.importers
      ensures ImporterInv(s', who)
    {
      OthersSurviveAbort(s, step, who);
    }
    SameTables(s, s');
  }

  lemma OthersSurviveAbort(s: State, step: Step, who: nat)
    requires step.Abort? && Enabled(s, step) && who in s.importers && who != step.who && ImporterInv(s, who)
    ensures ImporterInv(Apply(s, step), who)
  {
    hide HoldsKeys;
    KeysSurviveRelease(s, Apply(s, step), step.who, who, s.importers[who].handled);
  }

  lemma StepKeepsInv(s: State, step: Step)
    requires Inv(s) && Enabled(s, step)
    ensures Inv(Apply(s, step))
  {
    hide Inv;
    match step {
      case Submit(_, _, _) => SubmitKeepsInv(s, step);
      case Claim(_, _) => ClaimKeepsInv(s, step);
      case Fetch(_) => FetchKeepsInv(s, step);
      case Try(_, _, _) => TryKeepsInv(s, step);
      case Commit(_) => CommitKeepsInv(s, step);
      case Abort(_) => AbortKeepsInv(s, step);
    }
  }

  /** What has been submitted stays as it was, and stays handled once it is; a new submission is
      pending with the simhash and MBID it came with. */
  lemma SubmissionsStay(s: State, step: Step, id: nat)
    requires Enabled(s, step) && id in Apply(s, step).submissions
    ensures
      var s' := Apply(s, step);
      if id in s.submissions then
        && s'.submissions[id] == s.submissions[id].(handled := s'.submissions[id].handled)
        && (s.submissions[id].handled ==> s'.submissions[id].handled)
      else
        && step == Submit(id, s'.submissions[id].hash, s'.submissions[id].mbid)
        && !s'.submissions[id].handled && id in s'.pending
  {
  }

  // ----- the locks ----------------------------------------------------------------------

  /** The keys of a submission: its simhash, and its MBID if it has one. */
  function KeysOf(submission: Submission): set<Key> {
    {FingerprintKey(submission.hash)} + if submission.mbid.Some? then {MbidKey(submission.mbid.value)} else {}
  }

  ghost predicate HeldByAnother(s: State, who: nat, key: Key) {
    exists v :: v in s.importers && v != who && key in s.locks && s.locks[key] == v
  }

  ghost predicate IsRelated(s: State, who: nat, id: nat)
    requires id in s.submissions
  {
    exists key :: key in KeysOf(s.submissions[id]) && HeldByAnother(s, who, key)
  }

  /** A submission is refused if and only if another open importer holds one of its keys. If it
      is not, the importer then holds them all and the submission is handled, with a result if
      it is imported and none if it is skipped; if it is, it is put aside. No lock is taken
      away, and none is taken but on its keys. */
  lemma RefusedIffRelated(s: State, who: nat, id: nat, imports: bool)
    requires Inv(s) && Enabled(s, Try(who, id, imports))
    ensures
      var w, w', s' := s.importers[who], Apply(s, Try(who, id, imports)).importers[who], Apply(s, Try(who, id, imports));
      && w' == w.(todo := w.todo - {id}, refused := w'.refused, handled := w'.handled, results := w'.results)
      && w'.refused == (if IsRelated(s, who, id) then w.refused + {id} else w.refused)
      && w'.handled == (if IsRelated(s, who, id) then w.handled else w.handled + {id})
      && w'.results == (if imports && !IsRelated(s, who, id) then w.results + multiset{id} else w.results)
      && (!IsRelated(s, who, id) ==> HoldsKeys(s', who, id))
      && (forall k :: k in s.locks ==> k in s'.locks && s'.locks[k] == s.locks[k])
      && (forall k :: k in s'.locks && k !in s.locks ==> k in KeysOf(s.submissions[id]) && s'.locks[k] == who)
  {
    hide ImporterInv, TablesInv, ClaimsApart;
    var first := FingerprintKey(s.submissions[id].hash);
    assert first in KeysOf(s.submissions[id]);
    HeldIffNotFree(s, who, first);
    if s.submissions[id].mbid.Some? {
      var second := MbidKey(s.submissions[id].mbid.value);
      assert second in KeysOf(s.submissions[id]);
      HeldIffNotFree(s, who, second);
    }
  }

  lemma HeldIffNotFree(s: State, who: nat, key: Key)
    requires LocksInv(s)
    ensures HeldByAnother(s, who, key) <==> !IsFree(s, key, who)
  {
  }

  /** When an importer commits or aborts, its locks go and all others stay. */
  lemma LocksEndWithTheirHolder(s: State, step: Step)
    requires Enabled(s, step) && (step.Commit? || step.Abort?)
    ensures
      var s' := Apply(s, step);
      && step.who !in s'.importers
      && (forall k :: k in s'.locks ==> k in s.locks && s'.locks[k] == s.locks[k] && s'.locks[k] != step.who)
      && (forall k :: k in s.locks && s.locks[k] != step.who ==> k in s'.locks)
  {
  }

  // ----- runs ---------------------------------------------------------------------------

  ghost predicate Follows(s: State, step: Step, s': State) {
    Enabled(s, step) && s' == Apply(s, step)
  }

  ghost predicate Run(trace: seq<Step>, s: State) {
    if trace == [] then s == INITIAL
    else
      var last := trace[|trace| - 1];
      exists r :: Run(trace[..|trace| - 1], r) && Follows(r, last, s)
  }

  lemma {:induction false} RunKeepsInv(trace: seq<Step>, s: State)
    requires Run(trace, s)
    ensures Inv(s)
    decreases |trace|
  {
    if trace != [] {
      var last := trace[|trace| - 1];
      var r :| Run(trace[..|trace| - 1], r) && Follows(r, last, s);
      RunKeepsInv(trace[..|trace| - 1], r);
      StepKeepsInv(r, last);
    }
  }

  /** In every committed state a submission is pending exactly when it is unhandled, has at
      most one result, and none while it is unhandled. */
  lemma PendingIffUnhandled(trace: seq<Step>, s: State, id: nat)
    requires Run(trace, s) && id in s.submissions
    ensures id in s.pending <==> !s.submissions[id].handled
    ensures s.results[id] <= if s.submissions[id].handled then 1 else 0
  {
    hide Run;
    RunKeepsInv(trace, s);
  }

  /** A run from a given state on, in which nobody else begins. */
  ghost predicate RunAlone(s: State, steps: seq<Step>, s': State) {
    if steps == [] then s' == s
    else
      var last := steps[|steps| - 1];
      exists r :: RunAlone(s, steps[..|steps| - 1], r) && Follows(r, last, s') && !last.Claim?
  }

  lemma {:induction false} AloneIsRefusedNothing(s: State, steps: seq<Step>, s': State, who: nat)
    requires Inv(s) && s.importers.Keys == {who} && s.importers[who].refused == {} && RunAlone(s, steps, s')
    ensures Inv(s') && s'.importers.Keys <= {who}
    ensures who in s'.importers ==> s'.importers[who].refused == {} && s'.importers[who].claimed == s.importers[who].claimed
    decreases |steps|
  {
    hide Inv, Locked;
    if steps != [] {
      var last := steps[|steps| - 1];
      var r :| RunAlone(s, steps[..|steps| - 1], r) && Follows(r, last, s') && !last.Claim?;
      hide Follows, RunAlone;
      AloneIsRefusedNothing(s, steps[..|steps| - 1], r, who);
      AloneStep(r, last, s', who);
    }
  }

  lemma AloneStep(r: State, step: Step, s': State, who: nat)
    requires Inv(r) && r.importers.Keys <= {who} && Follows(r, step, s') && !step.Claim?
    requires who in r.importers ==> r.importers[who].refused == {}
    ensures Inv(s') && s'.importers.Keys <= {who}
    ensures who in s'.importers ==>
              who in r.importers && s'.importers[who].refused == {} && s'.importers[who].claimed == r.importers[who].claimed
  {
    hide Inv, Locked;
    StepKeepsInv(r, step);
    if step.Try? {
      RefusedIffRelated(r, step.who, step.id, step.imports);
    }
  }

  /** An importer that is alone, from its claim to its commit, handles everything it has
      claimed, whatever is submitted in the meantime. */
  lemma AloneHandlesAll(trace: seq<Step>, s: State, steps: seq<Step>, s': State, who: nat, id: nat)
    requires Run(trace, s) && s.importers.Keys == {who} && s.importers[who].refused == {} && RunAlone(s, steps, s')
    requires Enabled(s', Commit(who)) && id in s.importers[who].claimed
    ensures
      var t := Apply(s', Commit(who));
      id in t.submissions && t.submissions[id].handled && id !in t.pending
  {
    hide Run, RunAlone, Released;
    RunKeepsInv(trace, s);
    AloneIsRefusedNothing(s, steps, s', who);
    assert ImporterInv(s', who);
  }

  /** In every state that can be reached each lock is held by an importer that is open. */
  lemma LocksHaveHolders(trace: seq<Step>, s: State, key: Key)
    requires Run(trace, s) && key in s.locks
    ensures s.locks[key] in s.importers
  {
    hide Run;
    RunKeepsInv(trace, s);
  }

  /** A submission whose lock is refused stays pending and unhandled, without a result, through
      the commit of the importer that was refused. */
  lemma RefusedStaysPending(trace: seq<Step>, s: State, who: nat, id: nat)
    requires Run(trace, s) && Enabled(s, Commit(who)) && id in s.importers[who].refused
    ensures
      var s' := Apply(s, Commit(who));
      id in s'.pending && id in s'.submissions && !s'.submissions[id].handled && s'.results[id] == 0
  {
    hide Run;
    RunKeepsInv(trace, s);
    assert ImporterInv(s, who);
  }

  /** What a commit does for the others it has claimed: handled, no longer pending, and with
      the one result its importer wrote, if any. */
  lemma ClaimedAreHandled(trace: seq<Step>, s: State, who: nat, id: nat)
    requires Run(trace, s) && Enabled(s, Commit(who)) && id in s.importers[who].claimed - s.importers[who].refused
    ensures
      var s' := Apply(s, Commit(who));
      id !in s'.pending && id in s'.submissions && s'.submissions[id].handled
      && s'.results[id] == s.importers[who].results[id]
  {
    hide Run;
    RunKeepsInv(trace, s);
    assert ImporterInv(s, who);
  }

  /** Two open importers never have submissions with the same simhash or the same MBID in
      hand, nor the same submission. */
  lemma RelatedAreApart(trace: seq<Step>, s: State, v: nat, w: nat, a: nat, b: nat)
    requires Run(trace, s) && v in s.importers && w in s.importers && v != w
    requires a in s.importers[v].handled && b in s.importers[w].handled
    ensures a != b && a in s.submissions && b in s.submissions
    ensures s.submissions[a].hash != s.submissions[b].hash
    ensures s.submissions[a].mbid.Some? ==> s.submissions[a].mbid != s.submissions[b].mbid
  {
    hide Run;
    RunKeepsInv(trace, s);
    assert ImporterInv(s, v) && ImporterInv(s, w);
    assert HoldsKeys(s, v, a) && HoldsKeys(s, w, b);
  }
}
