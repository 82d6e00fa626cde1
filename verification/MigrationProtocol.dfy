/** Any number of processes opening one database: guard check, lock, second ledger check, apply. */
module MigrationProtocol {
  import opened Wrappers
  import opened Migrations
  import opened MigrationPasses

  /**
   A process at migration `next`: about to check it, or past a successful check and waiting for the write lock.
   The check of one guard is one step; so is the transaction under the lock.
   */
  datatype Process = Checking(next: nat) | Waiting(next: nat) | Done | Failed | Crashed

  datatype System<Rows> = System(db: Database<Rows>, processes: seq<Process>)

  function Advanced(i: nat): Process {
    if i < LAST then Checking(i + 1) else Done
  }

  /** A new process refuses a database newer than its migrations, else begins with the first one. */
  predicate Starts<Rows(==)>(s: System<Rows>, t: System<Rows>) {
    s.db.version <= LAST && t == System(s.db, s.processes + [Checking(1)])
  }

  predicate Checks<Rows(==)>(s: System<Rows>, t: System<Rows>, p: nat) {
    && p < |s.processes| && s.processes[p].Checking?
    && var i := s.processes[p].next;
       t == s.(processes := s.processes[p := if Enabled(i, s.db) then Waiting(i) else Advanced(i)])
  }

  /** Under the lock the ledger is read again; a migration recorded meanwhile is skipped. */
  predicate Commits<Rows(==)>(s: System<Rows>, t: System<Rows>, p: nat, engine: Engine<Rows>) {
    && p < |s.processes| && s.processes[p].Waiting?
    && var i := s.processes[p].next;
       if i in s.db.ledger then t == s.(processes := s.processes[p := Advanced(i)])
       else match Apply(i, s.db, engine)
         case Some(after) => t == System(after, s.processes[p := Advanced(i)])
         case None => t == s.(processes := s.processes[p := Failed])
  }

  /** A process can stop anywhere; an open transaction is rolled back. */
  predicate Crashes<Rows(==)>(s: System<Rows>, t: System<Rows>, p: nat) {
    p < |s.processes| && t == s.(processes := s.processes[p := Crashed])
  }

  ghost predicate Step<Rows>(s: System<Rows>, t: System<Rows>, engine: Engine<Rows>) {
    || Starts(s, t)
    || exists p: nat :: Checks(s, t, p) || Commits(s, t, p, engine) || Crashes(s, t, p)
  }

  /** A run of the system from a database nobody has open. */
  ghost predicate IsRun<Rows>(run: seq<System<Rows>>, engine: Engine<Rows>) {
    && |run| > 0 && run[0].processes == []
    && forall k :: 0 <= k < |run| - 1 ==> Step(run[k], run[k + 1], engine)
  }

  // ----- the invariant

  /** A process agrees with `m` finished turns: it is not past turn `m + 1`, and waits only for an enabled turn. */
  ghost predicate ProcessAgrees<Rows>(process: Process, m: nat, d: Database<Rows>, engine: Engine<Rows>) {
    match process
    case Checking(i) => 1 <= i <= LAST && i <= m + 1
    case Waiting(i) =>
      && 1 <= i <= LAST && i <= m + 1
      && Trajectory(i - 1, d, engine).Some? && Enabled(i, Trajectory(i - 1, d, engine).value)
    case Done => m == LAST
    case Failed =>
      && m < LAST && Trajectory(m, d, engine).Some? && Enabled(m + 1, Trajectory(m, d, engine).value)
      && Trajectory(m + 1, d, engine) == None
    case Crashed => true
  }

  /** The shared database stands after `m` turns of the one sequential pass. */
  ghost predicate OnTrajectory<Rows>(s: System<Rows>, m: nat, d: Database<Rows>, engine: Engine<Rows>) {
    && m <= LAST && Trajectory(m, d, engine) == Some(s.db)
    && forall p :: 0 <= p < |s.processes| ==> ProcessAgrees(s.processes[p], m, d, engine)
  }

  /** One more finished turn suits every process. */
  lemma ProcessesFollow<Rows>(s: System<Rows>, m: nat, d: Database<Rows>, engine: Engine<Rows>)
    requires OnTrajectory(s, m, d, engine) && m < LAST && Trajectory(m + 1, d, engine).Some?
    ensures forall p :: 0 <= p < |s.processes| ==> ProcessAgrees(s.processes[p], m + 1, d, engine)
  {
    hide Trajectory, Enabled;
    forall p | 0 <= p < |s.processes| ensures ProcessAgrees(s.processes[p], m + 1, d, engine) {
      assert ProcessAgrees(s.processes[p], m, d, engine);
    }
  }

  lemma CheckKeepsTrajectory<Rows(!new)>(
    s: System<Rows>, t: System<Rows>, p: nat, m: nat, d: Database<Rows>, engine: Engine<Rows>) returns (n: nat)
    requires OnTrajectory(s, m, d, engine) && Checks(s, t, p)
    ensures m <= n && OnTrajectory(t, n, d, engine)
  {
    hide Applicable, Apply;
    var i := s.processes[p].next;
    assert ProcessAgrees(s.processes[p], m, d, engine);
    n := m;
    if i == m + 1 {
      if !Enabled(i, s.db) {
        n := m + 1;
        ProcessesFollow(s, m, d, engine);
      }
    } else {
      TurnsArePast(i, m, d, engine);
    }
  }

  lemma CommitKeepsTrajectory<Rows(!new)>(
    s: System<Rows>, t: System<Rows>, p: nat, m: nat, d: Database<Rows>, engine: Engine<Rows>) returns (n: nat)
    requires OnTrajectory(s, m, d, engine) && Commits(s, t, p, engine)
    ensures m <= n && OnTrajectory(t, n, d, engine)
  {
    hide Applicable, Apply;
    var i := s.processes[p].next;
    assert ProcessAgrees(s.processes[p], m, d, engine);
    n := m;
    if i <= m {
      TurnsArePast(i, m, d, engine);
    } else if Apply(i, s.db, engine).Some? {
      n := m + 1;
      ProcessesFollow(s, m, d, engine);
    }
  }

  lemma StepKeepsTrajectory<Rows(!new)>(
    s: System<Rows>, t: System<Rows>, m: nat, d: Database<Rows>, engine: Engine<Rows>) returns (n: nat)
    requires OnTrajectory(s, m, d, engine) && Step(s, t, engine)
    ensures m <= n && OnTrajectory(t, n, d, engine)
  {
    hide Trajectory, Apply, Enabled;
    if Starts(s, t) {
      n := m;
    } else {
      var p: nat :| Checks(s, t, p) || Commits(s, t, p, engine) || Crashes(s, t, p);
      if Checks(s, t, p) {
        n := CheckKeepsTrajectory(s, t, p, m, d, engine);
      } else if Commits(s, t, p, engine) {
        n := CommitKeepsTrajectory(s, t, p, m, d, engine);
      } else {
        n := m;
      }
    }
  }

  /** In every interleaving the shared database is always on the one sequential trajectory. */
  lemma {:induction false} RunStaysOnTrajectory<Rows(!new)>(
    run: seq<System<Rows>>, k: nat, engine: Engine<Rows>) returns (m: nat)
    requires IsRun(run, engine) && k < |run|
    ensures OnTrajectory(run[k], m, run[0].db, engine)
  {
    hide Step, Enabled, Apply;
    if k == 0 {
      m := 0;
    } else {
      var before := RunStaysOnTrajectory(run, k - 1, engine);
      assert Step(run[k - 1], run[k - 1 + 1], engine);
      m := StepKeepsTrajectory(run[k - 1], run[k], before, run[0].db, engine);
    }
  }

  // ----- what follows for every run

  predicate NoRepeats(ledger: seq<nat>) {
    forall i, j :: 0 <= i < j < |ledger| ==> ledger[i] != ledger[j]
  }

  lemma {:induction false} TrajectoryRecordsOnce<Rows>(m: nat, d: Database<Rows>, engine: Engine<Rows>)
    requires NoRepeats(d.ledger) && Trajectory(m, d, engine).Some?
    ensures NoRepeats(Trajectory(m, d, engine).value.ledger)
  {
    hide Applicable, NewSchema;
    if m > 0 { TrajectoryRecordsOnce(m - 1, d, engine); }
  }

  /** No interleaving records a migration twice. */
  lemma NothingRecordedTwice<Rows(!new)>(run: seq<System<Rows>>, k: nat, engine: Engine<Rows>)
    requires IsRun(run, engine) && k < |run| && NoRepeats(run[0].db.ledger)
    ensures NoRepeats(run[k].db.ledger)
  {
    var m := RunStaysOnTrajectory(run, k, engine);
    TrajectoryRecordsOnce(m, run[0].db, engine);
  }

  lemma {:induction false} PassFollowsTrajectory<Rows>(i: nat, d: Database<Rows>, engine: Engine<Rows>, m: nat, k: nat)
    requires 1 <= i <= m + 1 && k == m + 1 - i && m <= LAST && Trajectory(m, d, engine).Some?
    requires m == LAST || Trajectory(m + 1, d, engine) == None
    ensures Trajectory(i - 1, d, engine).Some?
    ensures PassFrom(i, Trajectory(i - 1, d, engine).value, engine)
         == (Trajectory(m, d, engine).value, m == LAST)
    decreases k
  {
    hide Enabled, Apply;
    NoneStaysNone(i - 1, m, d, engine);
    if k > 0 {
      NoneStaysNone(i, m, d, engine);
      PassFollowsTrajectory(i + 1, d, engine, m, k - 1);
    }
  }

  /** Once some process is done, schema, ledger, version and rows are those of one sequential pass. */
  lemma DoneMeansOnePass<Rows(!new)>(run: seq<System<Rows>>, k: nat, engine: Engine<Rows>)
    requires IsRun(run, engine) && k < |run| && Done in run[k].processes
    ensures PassFrom(1, run[0].db, engine) == (run[k].db, true)
  {
    hide PassFrom, Trajectory, Step;
    var m := RunStaysOnTrajectory(run, k, engine);
    var p :| 0 <= p < |run[k].processes| && run[k].processes[p] == Done;
    assert ProcessAgrees(run[k].processes[p], m, run[0].db, engine);
    PassFollowsTrajectory(1, run[0].db, engine, m, m);
    NoTurnsYet(run[0].db, engine);
  }

  lemma NoTurnsYet<Rows>(d: Database<Rows>, engine: Engine<Rows>)
    ensures Trajectory(0, d, engine) == Some(d)
  {
  }

  /** Once some process failed, the database is what a sequential pass leaves when it fails. */
  lemma FailureMeansFailedPass<Rows(!new)>(run: seq<System<Rows>>, k: nat, engine: Engine<Rows>)
    requires IsRun(run, engine) && k < |run| && Failed in run[k].processes
    ensures PassFrom(1, run[0].db, engine) == (run[k].db, false)
  {
    hide PassFrom, Trajectory, Step, Enabled;
    var m := RunStaysOnTrajectory(run, k, engine);
    var p :| 0 <= p < |run[k].processes| && run[k].processes[p] == Failed;
    assert ProcessAgrees(run[k].processes[p], m, run[0].db, engine);
    PassFollowsTrajectory(1, run[0].db, engine, m, m);
    NoTurnsYet(run[0].db, engine);
  }

  /** From a database in order, no interleaving ever lowers the version below the highest recorded one. */
  lemma VersionIsHighestRecorded<Rows(!new)>(run: seq<System<Rows>>, k: nat, engine: Engine<Rows>)
    requires IsRun(run, engine) && k < |run| && InOrder(run[0].db)
    ensures run[k].db.version == Highest(run[k].db.ledger)
    ensures k + 1 < |run| ==> run[k].db.version <= run[k + 1].db.version
  {
    hide Trajectory, Step;
    var d := run[0].db;
    var m := RunStaysOnTrajectory(run, k, engine);
    NoTurnsYet(d, engine);
    if m > 0 { VersionsRise(m, d, engine); }
    if k + 1 < |run| {
      assert Step(run[k], run[k + 1], engine);
      var n := StepKeepsTrajectory(run[k], run[k + 1], m, d, engine);
      VersionsOnlyRise(m, n, d, engine);
    }
  }

  lemma {:induction false} VersionsOnlyRise<Rows(!new)>(m: nat, n: nat, d: Database<Rows>, engine: Engine<Rows>)
    requires InOrder(d) && m <= n <= LAST && Trajectory(n, d, engine).Some? && Trajectory(m, d, engine).Some?
    ensures Trajectory(m, d, engine).value.version <= Trajectory(n, d, engine).value.version
    decreases n
  {
    hide Trajectory, InOrder;
    if m < n {
      VersionsRise(n, d, engine);
      VersionsOnlyRise(m, n - 1, d, engine);
    }
  }

  /**
   From a new database, in every interleaving, the database is untouched or holds what the first migration made:
   the current schema, recorded once as version 1, and no other version is ever recorded.
   */
  lemma NewDatabaseRuns<Rows(!new)>(run: seq<System<Rows>>, k: nat, engine: Engine<Rows>)
    requires IsRun(run, engine) && k < |run| && run[0].db == Database(0, [], map[], run[0].db.rows)
    ensures run[k].db == run[0].db
         || (engine.migrate(1, map[], run[0].db.rows).Some?
             && run[k].db == Database(1, [1], NEW_SCHEMA, engine.migrate(1, map[], run[0].db.rows).value))
    ensures run[k].db.version == Highest(run[k].db.ledger)
    ensures k + 1 < |run| ==> run[k].db.version <= run[k + 1].db.version
  {
    hide Trajectory, Step, InOrder;
    var m := RunStaysOnTrajectory(run, k, engine);
    NoTurnsYet(run[0].db, engine);
    if m > 0 { NewDatabaseTurns(m, run[0].db.rows, engine); }
    NewDatabaseInOrder(run[0].db.rows);
    VersionIsHighestRecorded(run, k, engine);
  }
}
