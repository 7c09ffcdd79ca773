/** The hourly partition job (acoustid/scripts/fpindex_changelog.py), one autocommitted
    statement at a time, with every other process free to act between two statements. */
module Maintenance {
  import opened Calendar
  import opened Sets
  import opened Wrappers
  import opened Changelog
  import opened ChangelogSafety
  import opened Replication

  const CREATE_AHEAD_MONTHS := 12

  // ----- months in a row ------------------------------------------------------------

  /** `count` months in a row from `start` have a partition, the next one has not. */
  ghost predicate UnbrokenRun(months: set<int>, start: int, count: nat) {
    (forall k :: start <= k < start + count ==> k in months) && start + count !in months
  }

  /** `_consecutive_months`: it ends, because a finite set has no endless run. */
  method ConsecutiveMonths(months: set<int>, start: int) returns (count: nat)
    ensures UnbrokenRun(months, start, count)
  {
    count := 0;
    var month := start;
    ghost var ahead := months;
    while month in months
      invariant month == start + count
      invariant forall k :: start <= k < month ==> k in months
      invariant ahead == set m | m in months && !(start <= m < month)
      decreases ahead
    {
      ghost var before := ahead;
      count := count + 1;
      month := month + 1;
      ahead := before - {month - 1};
    }
  }

  // ----- other processes --------------------------------------------------------------

  /** One state is reached from another by some run of the whole system. */
  ghost predicate Follows(extract: seq<int> -> seq<int>, s: State, s': State) {
    exists steps :: Run(extract, s, steps) && Exec(extract, s, steps) == s'
  }

  lemma FollowsSelf(extract: seq<int> -> seq<int>, s: State)
    ensures Follows(extract, s, s)
  {
    assert Run(extract, s, []) && Exec(extract, s, []) == s;
  }

  lemma FollowsStep(extract: seq<int> -> seq<int>, s: State, s': State, step: Step)
    requires Follows(extract, s, s') && Enabled(s', step) && Assumed(s', step)
    ensures Follows(extract, s, Apply(extract, s', step))
  {
    var steps :| Run(extract, s, steps) && Exec(extract, s, steps) == s';
    RunSnoc(extract, s, steps, step);
  }

  lemma FollowsKeepsInv(extract: seq<int> -> seq<int>, s: State, s': State)
    requires Inv(extract, s) && Follows(extract, s, s')
    ensures Inv(extract, s') && FloorRose(s, s')
  {
    var steps :| Run(extract, s, steps) && Exec(extract, s, steps) == s';
    RunKeepsInv(extract, s, steps);
  }

  lemma {:induction false} RunAppend(extract: seq<int> -> seq<int>, s: State, a: seq<Step>, b: seq<Step>)
    requires Run(extract, s, a) && Run(extract, Exec(extract, s, a), b)
    ensures Run(extract, s, a + b)
    ensures Exec(extract, s, a + b) == Exec(extract, Exec(extract, s, a), b)
    decreases |a|
  {
    if a == [] {
      assert a + b == b;
    } else {
      assert (a + b)[1..] == a[1..] + b;
      RunAppend(extract, Apply(extract, s, a[0]), a[1..], b);
    }
  }

  lemma FollowsTransitive(extract: seq<int> -> seq<int>, s: State, m: State, s': State)
    requires Follows(extract, s, m) && Follows(extract, m, s')
    ensures Follows(extract, s, s')
  {
    var a :| Run(extract, s, a) && Exec(extract, s, a) == m;
    var b :| Run(extract, m, b) && Exec(extract, m, b) == s';
    RunAppend(extract, s, a, b);
  }

  lemma FollowsKeepsRunway(extract: seq<int> -> seq<int>, s: State, s': State, first: int, last: int)
    requires Inv(extract, s) && Follows(extract, s, s')
    ensures Runway(s, first, last) ==> Runway(s', first, last)
    ensures s.clock.month <= s'.clock.month
  {
    var steps :| Run(extract, s, steps) && Exec(extract, s, steps) == s';
    if Runway(s, first, last) {
      RunwayLasts(extract, s, steps, first, last);
    }
    RunwayLasts(extract, s, steps, 0, -1);
  }

  // ----- the runway ---------------------------------------------------------------------

  /** Months that retention cannot have reached yet: all of `from..to` that are not out
      of the window still have a partition. */
  ghost predicate Runway(s: State, first: int, last: int) {
    forall k :: first <= k <= last && s.clock.month - RETENTION_MONTHS <= k ==> k in s.partitions
  }

  lemma {:induction false} RunwayLasts(extract: seq<int> -> seq<int>, s: State, steps: seq<Step>, first: int, last: int)
    requires Inv(extract, s) && Run(extract, s, steps) && Runway(s, first, last)
    ensures Runway(Exec(extract, s, steps), first, last)
    ensures s.clock.month <= Exec(extract, s, steps).clock.month
    decreases |steps|
  {
    if steps != [] {
      var s1 := Apply(extract, s, steps[0]);
      StepKeepsInv(extract, s, steps[0]);
      StepKeepsRunway(extract, s, steps[0], first, last);
      RunwayLasts(extract, s1, steps[1..], first, last);
    }
  }

  lemma StepKeepsRunway(extract: seq<int> -> seq<int>, s: State, step: Step, first: int, last: int)
    requires RetentionInv(s) && Enabled(s, step) && Runway(s, first, last)
    ensures Runway(Apply(extract, s, step), first, last)
    ensures s.clock.month <= Apply(extract, s, step).clock.month
  {
  }

  /** After a fully successful creation run in month `today`, and as long as the clock
      has not passed `today` by more than twelve months, whatever else runs in between:
      exactly one existing partition holds the current time, so no insert fails. */
  lemma InsertsAreCovered(extract: seq<int> -> seq<int>, s: State, steps: seq<Step>, today: int)
    requires Inv(extract, s) && Run(extract, s, steps)
    requires today <= s.clock.month && Runway(s, today, today + CREATE_AHEAD_MONTHS)
    requires Exec(extract, s, steps).clock.month <= today + CREATE_AHEAD_MONTHS
    requires HasPartition(Exec(extract, s, steps).clock.month)
    ensures
      var s' := Exec(extract, s, steps);
      && s'.clock.month in s'.partitions && InPartition(DateOf(s'.clock.month), s'.clock)
      && (forall m :: m in s'.partitions && HasPartition(m) && InPartition(DateOf(m), s'.clock) ==> m == s'.clock.month)
      && forall tx :: !Enabled(s', AppendFails(tx))
  {
    hide InPartition, Inv, Run;
    RunwayLasts(extract, s, steps, today, today + CREATE_AHEAD_MONTHS);
    var s' := Exec(extract, s, steps);
    forall m | HasPartition(m)
      ensures InPartition(DateOf(m), s'.clock) <==> s'.clock.month == m
    {
      MonthsByNumber(m, 0, s'.clock);
    }
  }

  /** Dropping a partition never shortens the run of months from the current one. */
  lemma DropKeepsHeadroom(extract: seq<int> -> seq<int>, s: State, month: int, count: nat)
    requires RetentionInv(s) && Enabled(s, DropPartition(month)) && UnbrokenRun(s.partitions, s.clock.month, count)
    ensures UnbrokenRun(Apply(extract, s, DropPartition(month)).partitions, s.clock.month, count)
  {
  }

  // ----- the job -------------------------------------------------------------------------

  /** What one statement meets: the steps of others just before it, and whether it times
      out on a lock. */
  datatype Moment = Moment(others: seq<Step>, timesOut: bool)

  /** Others take the steps they can. */
  function ActedOn(extract: seq<int> -> seq<int>, s: State, steps: seq<Step>): State {
    if steps == [] then s
    else
      var r := ActedOn(extract, s, steps[..|steps| - 1]);
      var last := steps[|steps| - 1];
      if Enabled(r, last) then Apply(extract, r, last) else r
  }

  /** Whether a statement of the job succeeds: it gets its lock, and is possible after what the
      others have just done; */
  predicate Succeeds(extract: seq<int> -> seq<int>, s: State, step: Step, moment: Moment) {
    !moment.timesOut && Enabled(ActedOn(extract, s, moment.others), step)
  }

  /** and the database after it. */
  function Ran(extract: seq<int> -> seq<int>, s: State, step: Step, moment: Moment): State {
    var r := ActedOn(extract, s, moment.others);
    if Succeeds(extract, s, step, moment) then Apply(extract, r, step) else r
  }

  /** Whether a partition goes, when nothing else runs: both statements get their locks,
      which the drop cannot while a writer has rows in the changelog. */
  predicate Retires(s: State, recordAt: Moment, dropAt: Moment) {
    !recordAt.timesOut && !dropAt.timesOut && forall t :: t in s.open ==> s.open[t].rows == []
  }

  ghost predicate Created(today: int, offsets: nat, moments: int -> Moment, m: int) {
    today <= m < today + offsets && !moments(m - today).timesOut
  }

  /** Nothing changed but for the partitions created at the offsets that did not fail. */
  ghost predicate OnlyCreated(s: State, s': State, today: int, offsets: nat, moments: int -> Moment) {
    && s' == s.(partitions := s'.partitions)
    && forall m :: m in s'.partitions <==> m in s.partitions || Created(today, offsets, moments, m)
  }

  lemma CreatedGrows(s: State, m: State, s': State, today: int, offset: nat, moments: int -> Moment)
    requires OnlyCreated(s, m, today, offset, moments)
    requires s' == m.(partitions := m.partitions + if moments(offset).timesOut then {} else {today + offset})
    ensures OnlyCreated(s, s', today, offset + 1, moments)
  {
  }

  ghost function Retired(s: State, cutoff: int, recordAt: int -> Moment, dropAt: int -> Moment): set<int> {
    set m | m in Visible(s.partitions) && m < cutoff && Retires(s, recordAt(m), dropAt(m))
  }

  lemma RunwayGrows(s: State, first: int, last: int)
    ensures Runway(s, first, last - 1) && last in s.partitions ==> Runway(s, first, last)
  {
  }

  /** The partitions ahead are there where the statement got its lock, and those out of the
      window are not where both statements did. */
  ghost predicate CreatedAndDropped(s: State, s': State, createAt: int -> Moment, recordAt: int -> Moment, dropAt: int -> Moment) {
    var today := s.clock.month;
    forall m :: m in s'.partitions <==>
      && (m in s.partitions || Created(today, CREATE_AHEAD_MONTHS + 1, createAt, m))
      && !(IsVisible(m) && m < today - RETENTION_MONTHS && Retires(s, recordAt(m), dropAt(m)))
  }

  lemma CreatedThenDropped(s: State, between: State, s': State, createAt: int -> Moment, recordAt: int -> Moment, dropAt: int -> Moment)
    ensures
      && OnlyCreated(s, between, s.clock.month, CREATE_AHEAD_MONTHS + 1, createAt)
      && s'.partitions == between.partitions - Retired(between, s.clock.month - RETENTION_MONTHS, recordAt, dropAt)
      ==> CreatedAndDropped(s, s', createAt, recordAt, dropAt)
  {
  }

  lemma OneMoreRetired(months: seq<int>, i: nat, retired: set<int>)
    requires i < |months|
    ensures (set m | m in months[..i + 1] && m in retired) ==
            (set m | m in months[..i] && m in retired) + if months[i] in retired then {months[i]} else {}
  {
    assert months[..i + 1] == months[..i] + [months[i]];
  }

  ghost predicate SameWriters(s: State, s': State) {
    s'.open == s.open && s'.lock == s.lock && s'.clock == s.clock
  }

  // ----- partitions by name ------------------------------------------------------------------

  /** `_existing_partitions`: the partitions among some tables, by name. A name that matches the
      pattern and does not parse stops the run (None). */
  method ExistingPartitions(tables: set<string>) returns (partitions: Option<map<string, Date>>)
    ensures partitions.None? <==> exists name :: name in tables && ParsePartitionName(name).Unparsable?
    ensures partitions.Some? ==>
              && (forall name :: name in partitions.value <==> name in tables && ParsePartitionName(name).Partition?)
              && (forall name :: name in partitions.value ==> ParsePartitionName(name) == Partition(partitions.value[name]))
  {
    hide ParsePartitionName;
    var found: map<string, Date> := map[];
    var todo := tables;
    while todo != {}
      invariant todo <= tables
      invariant forall name :: name in tables && name !in todo ==> !ParsePartitionName(name).Unparsable?
      invariant forall name :: name in found <==> name in tables && name !in todo && ParsePartitionName(name).Partition?
      invariant forall name :: name in found ==> ParsePartitionName(name) == Partition(found[name])
      decreases todo
    {
      ghost var _ := SomeElement(todo);
      var name :| name in todo;
      match ParsePartitionName(name) {
        case Unparsable => return None;
        case Foreign =>
        case Partition(month) => found := found[name := month];
      }
      todo := todo - {name};
    }
    partitions := Some(found);
  }

  /** The tables of some months, as the job names them. */
  function NamesOf(months: set<int>): set<string> {
    set m | m in months && HasPartition(m) :: PartitionName(DateOf(m))
  }

  /** Tables attached to the changelog under names that the job gives to no partition; from the
      year 1000 on every name it takes for a partition is its own (`ParsedNameIsItsOwn`). */
  predicate AreOthers(others: set<string>) {
    forall name :: name in others && ParsePartitionName(name).Partition? ==> ParsePartitionName(name).month.year < 1000
  }

  /** The months that it reads off the names of such tables. */
  function EarlyMonths(others: set<string>): set<int> {
    set name | name in others && ParsePartitionName(name).Partition? :: Index(ParsePartitionName(name).month)
  }

  /** A name that stops the run: it has the form of a partition's and no month. */
  predicate HasUnparsable(others: set<string>) {
    exists name :: name in others && ParsePartitionName(name).Unparsable?
  }

  predicate IsVisible(m: int) {
    HasPartition(m) && 12000 <= m
  }

  /** The months that the job can see: their names have six digits. */
  function Visible(months: set<int>): set<int> {
    set m | m in months && IsVisible(m)
  }

  function MonthsOf(partitions: map<string, Date>): set<int> {
    set name | name in partitions :: Index(partitions[name])
  }

  /** Among the tables of some months and others, only a name among the others can stop the
      run, and otherwise it finds exactly the months of the years from 1000 on, and earlier ones
      where other tables have such names. */
  lemma NamesAreMonths(months: set<int>, others: set<string>)
    requires AreOthers(others)
    ensures HasUnparsable(NamesOf(months) + others) <==> HasUnparsable(others)
    ensures forall partitions ::
              (forall name :: name in partitions <==> name in NamesOf(months) + others && ParsePartitionName(name).Partition?)
              && (forall name :: name in partitions ==> ParsePartitionName(name) == Partition(partitions[name]))
              ==> MonthsOf(partitions) == Visible(months) + EarlyMonths(others)
    ensures forall m :: m in EarlyMonths(others) ==> !IsVisible(m)
  {
    hide ParsePartitionName, PartitionName;
    forall m | m in months && HasPartition(m)
      ensures PartitionName(DateOf(m)) in NamesOf(months)
      ensures ParsePartitionName(PartitionName(DateOf(m))) == if 12000 <= m then Partition(DateOf(m)) else Foreign
    {
      YearOf(m);
      NameParsesBack(DateOf(m));
    }
    forall partitions: map<string, Date> |
      (forall name :: name in partitions <==> name in NamesOf(months) + others && ParsePartitionName(name).Partition?)
      && (forall name :: name in partitions ==> ParsePartitionName(name) == Partition(partitions[name]))
      ensures MonthsOf(partitions) == Visible(months) + EarlyMonths(others)
    {
      forall m | m in Visible(months)
        ensures m in MonthsOf(partitions)
      {
        var name := PartitionName(DateOf(m));
        assert name in partitions && Index(partitions[name]) == m;
      }
      forall name | name in others && ParsePartitionName(name).Partition?
        ensures Index(ParsePartitionName(name).month) in MonthsOf(partitions)
      {
        assert name in partitions;
      }
      forall name | name in partitions
        ensures Index(partitions[name]) in Visible(months) + EarlyMonths(others)
      {
        if name !in others {
          var m :| m in months && HasPartition(m) && PartitionName(DateOf(m)) == name;
        }
      }
    }
    forall name | name in others && ParsePartitionName(name).Partition?
      ensures !IsVisible(Index(ParsePartitionName(name).month))
    {
      ParsedNameIsItsOwn(name);
    }
  }

  lemma YearOf(m: int)
    requires HasPartition(m)
    ensures 1000 <= DateOf(m).year <==> 12000 <= m
  {
  }

  /** `sorted(_existing_partitions(conn).items(), key=...)` */
  method SortedMonths(found: set<int>) returns (months: seq<int>)
    ensures forall i, j :: 0 <= i < j < |months| ==> months[i] < months[j]
    ensures forall m :: m in months <==> m in found
  {
    months := [];
    var rest := found;
    while rest != {}
      invariant forall i, j :: 0 <= i < j < |months| ==> months[i] < months[j]
      invariant forall m :: m in found <==> m in months || m in rest
      invariant forall m, r :: m in months && r in rest ==> m < r
      decreases rest
    {
      LowestExists(rest);
      var m :| m in rest && forall r :: r in rest ==> m <= r;
      assert forall i :: 0 <= i < |months| ==> months[i] in months;
      months := months + [m];
      rest := rest - {m};
    }
  }

  class Job {
    const extract: seq<int> -> seq<int>
    var db: State
    // the environment has kept to the assumptions so far
    ghost var kept: bool

    constructor (extract: seq<int> -> seq<int>, db: State)
      ensures this.extract == extract && this.db == db && kept
    {
      this.extract := extract;
      this.db := db;
      kept := true;
    }

    ghost predicate Sound()
      reads this
    {
      kept ==> Inv(extract, db)
    }

    /** The database has gone on from an earlier state by a run of the whole system, as far as
        the environment has kept to the assumptions. */
    ghost predicate GoesOn(before: State, keptBefore: bool)
      reads this
    {
      before.clock.month <= db.clock.month && (kept ==> keptBefore && Follows(extract, before, db))
    }

    /** Other processes act, as far as their steps are possible. */
    method Others(steps: seq<Step>)
      requires Sound()
      modifies this
      ensures Sound() && GoesOn(old(db), old(kept)) && db == ActedOn(extract, old(db), steps)
      ensures steps == [] ==> db == old(db) && kept == old(kept)
    {
      hide Inv, Follows, Enabled, Apply;
      FollowsSelf(extract, db);
      for i := 0 to |steps|
        invariant Sound() && GoesOn(old(db), old(kept)) && db == ActedOn(extract, old(db), steps[..i])
        invariant steps == [] ==> db == old(db) && kept == old(kept)
      {
        assert steps[..i + 1][..i] == steps[..i];
        if Enabled(db, steps[i]) {
          Take(steps[i], old(db), old(kept));
        }
      }
      assert steps[..|steps|] == steps;
    }

    /** One possible step; the environment is to blame if it breaks an assumption. */
    method Take(step: Step, ghost before: State, ghost keptBefore: bool)
      requires Sound() && GoesOn(before, keptBefore) && Enabled(db, step)
      modifies this
      ensures Sound() && GoesOn(before, keptBefore)
      ensures db == Apply(extract, old(db), step) && kept == (old(kept) && Assumed(old(db), step))
    {
      hide Inv, Follows, Enabled, Apply, Assumed;
      ClockNeverGoesBack(extract, db, step);
      kept := kept && Assumed(db, step);
      if kept {
        StepKeepsInv(extract, db, step);
        FollowsStep(extract, before, db, step);
      }
      db := Apply(extract, db, step);
    }

    /** One statement of the job, amid what others do just before it; the database refuses it
        when it is not possible or times out. */
    method Execute(step: Step, moment: Moment) returns (ok: bool)
      requires Sound()
      modifies this
      ensures Sound() && GoesOn(old(db), old(kept))
      ensures ok ==> Executed(step)
      ensures ok == Succeeds(extract, old(db), step, moment) && db == Ran(extract, old(db), step, moment)
      ensures step.CreatePartition? ==> ok == !moment.timesOut
      ensures moment.others == [] ==> ok == (!moment.timesOut && Enabled(old(db), step))
      ensures moment.others == [] ==> db == if ok then Apply(extract, old(db), step) else old(db)
    {
      hide Inv, Follows;
      Others(moment.others);
      ok := !moment.timesOut && Enabled(db, step);
      if ok {
        Take(step, old(db), old(kept));
      }
    }

    /** What a statement has done for the months. */
    ghost predicate Executed(step: Step)
      reads this
    {
      match step
      case CreatePartition(month) => month in db.partitions
      case RecordFloor(month) => month in db.recorded
      case DropPartition(month) => month !in db.partitions && month in db.recorded
      case _ => true
    }

    /** `create_partitions`: this month and the twelve after it; a month that times out
        does not cost the months behind it. */
    method CreatePartitions(today: int, moments: int -> Moment)
      requires Sound() && today <= db.clock.month
      modifies this
      ensures Sound() && GoesOn(old(db), old(kept))
      ensures kept && (forall k :: !moments(k).timesOut) ==> Runway(db, today, today + CREATE_AHEAD_MONTHS)
      ensures (forall k :: moments(k).others == []) ==>
                OnlyCreated(old(db), db, today, CREATE_AHEAD_MONTHS + 1, moments)
    {
      hide Inv, Follows;
      FollowsSelf(extract, db);
      ghost var quiet := forall k :: moments(k).others == [];
      ghost var prompt := forall k :: !moments(k).timesOut;
      for offset := 0 to CREATE_AHEAD_MONTHS + 1
        invariant Sound() && GoesOn(old(db), old(kept))
        invariant kept && prompt ==> Runway(db, today, today + offset - 1)
        invariant quiet ==> OnlyCreated(old(db), db, today, offset, moments)
      {
        ghost var before := db;
        var ok := CreateMonth(today + offset, moments(offset));
        if kept {
          FollowsTransitive(extract, old(db), before, db);
          FollowsKeepsRunway(extract, before, db, today, today + offset - 1);
        }
        RunwayGrows(db, today, today + offset);
        if quiet {
          CreatedGrows(old(db), before, db, today, offset, moments);
        }
      }
    }

    method CreateMonth(month: int, moment: Moment) returns (ok: bool)
      requires Sound()
      modifies this
      ensures Sound() && GoesOn(old(db), old(kept)) && ok == !moment.timesOut
      ensures ok ==> month in db.partitions
      ensures moment.others == [] ==>
                db == old(db).(partitions := old(db).partitions + if ok then {month} else {})
    {
      hide Inv, Follows;
      ok := Execute(CreatePartition(month), moment);
    }

    /** The months of the partitions, by the names of the tables that are attached. */
    method SeenMonths(others: set<string>) returns (months: Option<set<int>>)
      requires AreOthers(others)
      ensures months == if HasUnparsable(others) then None else Some(Visible(db.partitions) + EarlyMonths(others))
      ensures forall m :: m in EarlyMonths(others) ==> !IsVisible(m)
    {
      hide ParsePartitionName;
      var partitions := ExistingPartitions(NamesOf(db.partitions) + others);
      NamesAreMonths(db.partitions, others);
      months := if partitions.None? then None else Some(MonthsOf(partitions.value));
    }

    /** Record the watermark, then drop: a partition whose record fails is kept, and one that is
        dropped has all its rows at or below the watermark. */
    method Retire(month: int, recordAt: Moment, dropAt: Moment) returns (dropped: bool)
      requires Sound() && month in db.partitions && month < db.clock.month - RETENTION_MONTHS
      modifies this
      ensures Sound() && GoesOn(old(db), old(kept))
      ensures dropped ==> month !in db.partitions && month in db.recorded
      ensures
        var recorded, s := Succeeds(extract, old(db), RecordFloor(month), recordAt), Ran(extract, old(db), RecordFloor(month), recordAt);
        && dropped == (recorded && Succeeds(extract, s, DropPartition(month), dropAt))
        && db == if recorded then Ran(extract, s, DropPartition(month), dropAt) else s
      ensures dropped && kept ==> forall e :: e in db.history && e.created.month == month ==> AtOrBelowFloor(db, e.id)
      ensures recordAt.others == [] && dropAt.others == [] ==>
                && SameWriters(old(db), db) && dropped == Retires(old(db), recordAt, dropAt)
                && db.partitions == old(db).partitions - if dropped then {month} else {}
    {
      hide Inv, Follows;
      dropped := false;
      var recorded := Execute(RecordFloor(month), recordAt);
      if recorded {
        ghost var between := db;
        dropped := Execute(DropPartition(month), dropAt);
        if kept {
          FollowsTransitive(extract, old(db), between, db);
          if dropped {
            RecordedIsBelow(extract, db, month);
          }
        }
      }
    }

    /** `drop_partitions`: oldest first; a failed partition is left for the next run and
        does not keep the later ones. A name without a month stops it before it drops anything. */
    method DropPartitions(today: int, others: set<string>, recordAt: int -> Moment, dropAt: int -> Moment) returns (ok: bool)
      requires Sound() && today <= db.clock.month && AreOthers(others)
      modifies this
      ensures Sound() && GoesOn(old(db), old(kept))
      ensures ok <==> !HasUnparsable(others)
      ensures !ok ==> db == old(db) && kept == old(kept)
      ensures ok && (forall m :: recordAt(m).others == [] && dropAt(m).others == []) ==>
                && SameWriters(old(db), db)
                && db.partitions == old(db).partitions - Retired(old(db), today - RETENTION_MONTHS, recordAt, dropAt)
    {
      var cutoff := today - RETENTION_MONTHS;
      hide Inv, Follows, HasUnparsable, Succeeds, Ran, ActedOn, Apply, Enabled, AtOrBelowFloor;
      FollowsSelf(extract, db);
      var seen := SeenMonths(others);
      if seen.None? {
        return false;
      }
      ok := true;
      var months := SortedMonths(seen.value);
      ghost var quiet := forall m :: recordAt(m).others == [] && dropAt(m).others == [];
      ghost var retired := Retired(db, cutoff, recordAt, dropAt);
      for i := 0 to |months|
        invariant Sound() && GoesOn(old(db), old(kept))
        invariant quiet ==> SameWriters(old(db), db)
        invariant quiet ==> db.partitions == old(db).partitions - (set m | m in months[..i] && m in retired)
      {
        var month := months[i];
        ghost var before := db;
        OneMoreRetired(months, i, retired);
        // a table with an early name goes too, and holds no row of the changelog
        if month < cutoff && IsVisible(month) && month in db.partitions {
          var _ := Retire(month, recordAt(month), dropAt(month));
          if kept {
            FollowsTransitive(extract, old(db), before, db);
          }
        }
      }
      assert months[..|months|] == months;
    }

    /** `report_headroom` */
    method ReportHeadroom(today: int, others: set<string>) returns (headroom: Option<nat>)
      requires AreOthers(others)
      ensures headroom.None? <==> HasUnparsable(others)
      ensures headroom.Some? ==> UnbrokenRun(Visible(db.partitions) + EarlyMonths(others), today, headroom.value)
    {
      hide HasUnparsable;
      var seen := SeenMonths(others);
      if seen.None? {
        return None;
      }
      var count := ConsecutiveMonths(seen.value, today);
      headroom := Some(count);
    }

    /** `run_manage_fpindex_changelog`, with the tables under other names that the two queries
        for partitions meet. It stops where such a name has the form of a partition's and no
        month; the partitions ahead have been created even so. When nothing times out and nobody
        interferes, the run leaves at least thirteen months of headroom. */
    method Run(others1: set<string>, others2: set<string>,
               createAt: int -> Moment, recordAt: int -> Moment, dropAt: int -> Moment)
      returns (headroom: Option<nat>)
      requires Sound() && AreOthers(others1) && AreOthers(others2)
      modifies this
      ensures Sound() && GoesOn(old(db), old(kept)) && (kept ==> FloorRose(old(db), db))
      ensures headroom.None? <==> HasUnparsable(others1) || HasUnparsable(others2)
      ensures headroom.Some? ==> UnbrokenRun(Visible(db.partitions) + EarlyMonths(others2), old(db).clock.month, headroom.value)
      ensures kept && (forall k :: !createAt(k).timesOut) ==>
                Runway(db, old(db).clock.month, old(db).clock.month + CREATE_AHEAD_MONTHS)
      ensures !HasUnparsable(others1)
              && (forall m :: recordAt(m).others == [] && dropAt(m).others == [] && createAt(m).others == []) ==>
                CreatedAndDropped(old(db), db, createAt, recordAt, dropAt)
      ensures
        && kept && headroom.Some?
        && (forall k :: !createAt(k).timesOut)
        && (forall m :: recordAt(m).others == [] && dropAt(m).others == [] && createAt(m).others == [])
        && IsVisible(old(db).clock.month) && IsVisible(old(db).clock.month + CREATE_AHEAD_MONTHS)
        ==> CREATE_AHEAD_MONTHS < headroom.value
    {
      hide Inv, Follows, HasUnparsable, AreOthers, CreatedAndDropped, Retired;
      var today := db.clock.month;
      CreatePartitions(today, createAt);
      ghost var between := db;
      var ok := DropPartitions(today, others1, recordAt, dropAt);
      CreatedThenDropped(old(db), between, db, createAt, recordAt, dropAt);
      if kept {
        FollowsKeepsRunway(extract, old(db), between, 0, -1);
        FollowsTransitive(extract, old(db), between, db);
        FollowsKeepsRunway(extract, between, db, today, today + CREATE_AHEAD_MONTHS);
        FollowsKeepsInv(extract, old(db), db);
      }
      if !ok {
        return None;
      }
      headroom := ReportHeadroom(today, others2);
    }
  }

  lemma ClockNeverGoesBack(extract: seq<int> -> seq<int>, s: State, step: Step)
    requires Enabled(s, step)
    ensures s.clock.month <= Apply(extract, s, step).clock.month
  {
  }

  lemma RecordedIsBelow(extract: seq<int> -> seq<int>, s: State, month: int)
    requires Inv(extract, s) && month in s.recorded
    ensures forall e :: e in s.history && e.created.month == month ==> AtOrBelowFloor(s, e.id)
  {
  }
}
