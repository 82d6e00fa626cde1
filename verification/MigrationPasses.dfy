/** Passes over the packaged migrations: nothing is enabled again, a second pass does nothing, versions only rise. */
module MigrationPasses {
  import opened Wrappers
  import opened Migrations
  import opened MigrationEffects

  // ----- what migrations leave alone

  /** The columns of earlier guards that migration `i` does not bring. */
  predicate IsKept(i: nat, t: Table, c: Column) {
    match t
    case EvidenceMetadata => c == RunId || c == Id || (i > 5 && c == Locator)
    case ComplianceGaps => c == Id || (i > 3 && c == RunId)
    case ControlResults => c == Id || (i > 5 && c in {RunId, Status, ControlId, EvidenceId})
    case _ => false
  }

  /** They are there after it exactly if they were there before. */
  lemma KeepsColumn(i: nat, s: Schema, t: Table, c: Column)
    requires 2 < i <= LAST && NewSchema(i, s).Some? && IsKept(i, t, c)
    ensures Has(NewSchema(i, s).value, t, c) <==> Has(s, t, c)
  {
    hide NewSchema, Has, Brings;
    BringsExactly(i, s);
    GuardsKeepColumns(i, s, t, c);
  }

  /** No column of an evidence, gap or result table is brought by the last migration but for results' export columns. */
  lemma LastBrings(s: Schema, t: Table, c: Column)
    requires (t, c) in Brings(8, s)
    ensures t != EvidenceMetadata && t != ComplianceGaps
    ensures t == ControlResults ==> c !in {Id, RunId, Status, ControlId, EvidenceId}
  {
    assert (t, c) in RUN_COLUMNS || (t, c) in MissingExportTables(s) || (t, c) in EXPORT_LINK_COLUMNS;
    assert (t, c) in RUN_COLUMNS ==> t == ScanRuns || t == ControlResults;
    assert (t, c) in EXPORT_LINK_COLUMNS ==> IsLinkTable(t);
    assert (t, c) in MissingExportTables(s) ==> IsLinkTable(t);
  }

  predicate IsLinkTable(t: Table) {
    t == RunEvidenceLinks || t == RunFrameworkLinks || t == RunControlLinks
  }

  lemma FifthBrings(s: Schema, t: Table, c: Column)
    requires (t, c) in Brings(5, s)
    ensures (t, c) == (EvidenceMetadata, Locator) || (t == ControlResults && c != Id)
  {
    var filters := if Has(s, EvidenceMetadata, Id) then [(EvidenceMetadata, Locator)] else [];
    assert Brings(5, s) == RESULT_COLUMNS + filters;
    assert (t, c) in RESULT_COLUMNS ==> t == ControlResults && c != Id;
  }

  lemma GuardsKeepColumns(i: nat, s: Schema, t: Table, c: Column)
    requires 2 < i <= LAST
    requires IsKept(i, t, c)
    ensures (t, c) !in Brings(i, s)
  {
    hide Brings, Has;
    PlainBrings(s);
    if (t, c) in Brings(8, s) { LastBrings(s, t, c); }
    if (t, c) in Brings(5, s) { FifthBrings(s, t, c); }
  }

  // ----- a migration past its turn stays disabled

  lemma SecondStays<Rows(!new)>(j: nat, d: Database<Rows>, s: Schema)
    requires 2 < j <= LAST && !Applicable(2, d) && NewSchema(j, d.schema) == Some(s)
    ensures !Has(s, EvidenceMetadata, RunId)
  {
    hide NewSchema, Has;
    KeepsColumn(j, d.schema, EvidenceMetadata, RunId);
  }

  lemma ThirdStays<Rows(!new)>(j: nat, d: Database<Rows>, s: Schema)
    requires 3 < j <= LAST && !Applicable(3, d) && NewSchema(j, d.schema) == Some(s)
    ensures !Has(s, ComplianceGaps, Id) || Has(s, ComplianceGaps, RunId)
  {
    hide NewSchema, Has, Brings;
    KeepsColumn(j, d.schema, ComplianceGaps, Id);
    KeepsColumn(j, d.schema, ComplianceGaps, RunId);
  }

  lemma FiveBringsLocators(s: Schema)
    ensures Has(s, EvidenceMetadata, Id) ==> (EvidenceMetadata, Locator) in Brings(5, s)
  {
    hide Has;
  }

  lemma FourthStays<Rows(!new)>(j: nat, d: Database<Rows>, s: Schema)
    requires 4 < j <= LAST && !Applicable(4, d) && NewSchema(j, d.schema) == Some(s)
    ensures !(Has(s, EvidenceMetadata, Id) && Has(s, ControlResults, ControlId) && Has(s, ControlResults, EvidenceId)
              && !Has(s, EvidenceMetadata, Locator))
  {
    hide NewSchema, Has, Brings;
    KeepsColumn(j, d.schema, EvidenceMetadata, Id);
    if j == 5 {
      FiveBringsLocators(d.schema);
      BringsExactly(5, d.schema);
    } else {
      KeepsColumn(j, d.schema, EvidenceMetadata, Locator);
      KeepsColumn(j, d.schema, ControlResults, ControlId);
      KeepsColumn(j, d.schema, ControlResults, EvidenceId);
    }
  }

  lemma FifthStays<Rows(!new)>(j: nat, d: Database<Rows>, s: Schema)
    requires 5 < j <= LAST && !Applicable(5, d) && NewSchema(j, d.schema) == Some(s)
    ensures !Has(s, ControlResults, Id) || (Has(s, ControlResults, RunId) && Has(s, ControlResults, Status))
  {
    hide NewSchema, Has, Brings;
    KeepsColumn(j, d.schema, ControlResults, Id);
    KeepsColumn(j, d.schema, ControlResults, RunId);
    KeepsColumn(j, d.schema, ControlResults, Status);
  }

  /** No later migration makes a false guard true again. */
  lemma StaysDisabled<Rows(!new)>(i: nat, j: nat, d: Database<Rows>, engine: Engine<Rows>)
    requires 1 <= i < j <= LAST && !Enabled(i, d) && Apply(j, d, engine).Some?
    ensures !Enabled(i, Apply(j, d, engine).value)
  {
    hide NewSchema, Has, HasAll;
    var s := NewSchema(j, d.schema).value;
    if i !in d.ledger {
      match i
      case 2 => SecondStays(j, d, s);
      case 3 => ThirdStays(j, d, s);
      case 4 => FourthStays(j, d, s);
      case 5 => FifthStays(j, d, s);
      case _ =>
    }
  }

  // ----- turn by turn

  /** The database after the first `k` turns, if they all went through. */
  function Trajectory<Rows>(k: nat, d: Database<Rows>, engine: Engine<Rows>): Option<Database<Rows>> {
    if k == 0 then Some(d)
    else match Trajectory(k - 1, d, engine)
      case None => None
      case Some(before) => if Enabled(k, before) then Apply(k, before, engine) else Some(before)
  }

  /** After its turn a migration is disabled, and recorded if it was enabled at its turn. */
  lemma {:induction false} TurnsArePast<Rows(!new)>(i: nat, k: nat, d: Database<Rows>, engine: Engine<Rows>)
    requires 1 <= i <= k <= LAST && Trajectory(k, d, engine).Some?
    ensures !Enabled(i, Trajectory(k, d, engine).value)
    ensures Trajectory(i - 1, d, engine).Some?
    ensures Enabled(i, Trajectory(i - 1, d, engine).value) ==> i in Trajectory(k, d, engine).value.ledger
  {
    hide Applicable, NewSchema;
    if i < k {
      TurnsArePast(i, k - 1, d, engine);
      var before := Trajectory(k - 1, d, engine).value;
      if Enabled(k, before) { StaysDisabled(i, k, before, engine); }
    }
  }

  lemma {:induction false} PassIsTrajectory<Rows>(i: nat, d: Database<Rows>, engine: Engine<Rows>, k: nat)
    requires 1 <= i && k == LAST + 1 - i && Trajectory(i - 1, d, engine).Some?
    ensures var (after, ok) := PassFrom(i, Trajectory(i - 1, d, engine).value, engine);
            (ok ==> Trajectory(LAST, d, engine) == Some(after)) && (Trajectory(LAST, d, engine).Some? ==> ok)
    decreases k
  {
    hide Enabled, Apply;
    if k > 0 && Trajectory(i, d, engine).Some? {
      PassIsTrajectory(i + 1, d, engine, k - 1);
    } else if k > 0 && Trajectory(LAST, d, engine).Some? {
      NoneStaysNone(i, LAST, d, engine);
    }
  }

  lemma {:induction false} DisabledPass<Rows>(i: nat, d: Database<Rows>, engine: Engine<Rows>, k: nat)
    requires 1 <= i && k == LAST + 1 - i && forall j :: i <= j <= LAST ==> !Enabled(j, d)
    ensures PassFrom(i, d, engine) == (d, true)
    decreases k
  {
    hide Enabled, Apply;
    if k > 0 { DisabledPass(i + 1, d, engine, k - 1); }
  }

  /** After a pass that went through, from any database, a second pass changes nothing. */
  lemma SecondPassChangesNothing<Rows(!new)>(d: Database<Rows>, engine: Engine<Rows>)
    requires PassFrom(1, d, engine).1
    ensures var after := PassFrom(1, d, engine).0;
            PassFrom(1, after, engine) == (after, true) && forall j :: 1 <= j <= LAST ==> !Enabled(j, after)
  {
    hide Enabled, Apply;
    var after := PassFrom(1, d, engine).0;
    PassIsTrajectory(1, d, engine, LAST);
    forall j | 1 <= j <= LAST ensures !Enabled(j, after) { TurnsArePast(j, LAST, d, engine); }
    DisabledPass(1, after, engine, LAST);
  }

  lemma {:induction false} VersionsStayPackaged<Rows>(i: nat, d: Database<Rows>, engine: Engine<Rows>, k: nat)
    requires 1 <= i && k == LAST + 1 - i && d.version <= LAST
    ensures PassFrom(i, d, engine).0.version <= LAST
    decreases k
  {
    hide Enabled, NewSchema;
    if k > 0 {
      VersionsStayPackaged(i + 1, d, engine, k - 1);
      if Apply(i, d, engine).Some? { VersionsStayPackaged(i + 1, Apply(i, d, engine).value, engine, k - 1); }
    }
  }

  /** A database that opened opens again, unchanged. */
  lemma ReopeningChangesNothing<Rows(!new)>(d: Database<Rows>, engine: Engine<Rows>)
    requires Opened(d, engine).1 == None
    ensures var after := Opened(d, engine).0; Opened(after, engine) == (after, None)
  {
    hide PassFrom, Invalidity, Enabled;
    SecondPassChangesNothing(d, engine);
    VersionsStayPackaged(1, d, engine, LAST);
  }

  // ----- versions

  function Highest(ledger: seq<nat>): (m: nat)
    ensures forall v :: v in ledger ==> v <= m
    ensures ledger == [] ==> m == 0
    ensures ledger != [] ==> m in ledger
  {
    if |ledger| == 0 then 0
    else
      var m := Highest(ledger[..|ledger| - 1]);
      assert forall v :: v in ledger ==> v in ledger[..|ledger| - 1] || v == ledger[|ledger| - 1];
      if |ledger| == 1 || m < ledger[|ledger| - 1] then ledger[|ledger| - 1] else m
  }

  /** The version is the highest recorded one, and no migration up to it is still enabled. */
  predicate InOrder<Rows>(d: Database<Rows>) {
    d.version == Highest(d.ledger) && forall i :: 1 <= i <= LAST && i <= d.version ==> !Enabled(i, d)
  }

  lemma NewDatabaseInOrder<Rows>(rows: Rows)
    ensures InOrder(Database(0, [], map[], rows))
  {
  }

  /** From a database in order, every turn keeps the version the highest recorded one and never lowers it. */
  lemma {:induction false} VersionsRise<Rows(!new)>(k: nat, d: Database<Rows>, engine: Engine<Rows>)
    requires InOrder(d) && 1 <= k <= LAST && Trajectory(k, d, engine).Some?
    ensures Trajectory(k - 1, d, engine).Some?
    ensures InOrder(Trajectory(k, d, engine).value)
    ensures Trajectory(k - 1, d, engine).value.version <= Trajectory(k, d, engine).value.version
  {
    hide Applicable, NewSchema, Highest;
    var before, after := Trajectory(k - 1, d, engine).value, Trajectory(k, d, engine).value;
    if k > 1 { VersionsRise(k - 1, d, engine); }
    if Enabled(k, before) {
      assert k > before.version;
      HighestRecorded(before.ledger, k);
      forall i | 1 <= i <= k ensures !Enabled(i, after) { TurnsArePast(i, k, d, engine); }
    }
  }

  lemma HighestRecorded(ledger: seq<nat>, v: nat)
    requires v > Highest(ledger)
    ensures Highest(ledger + [v]) == v
  {
    assert (ledger + [v])[..|ledger|] == ledger;
  }

  /** Migration `i` is the first one whose turn finds it enabled. */
  ghost predicate FirstEnabled<Rows>(i: nat, d: Database<Rows>) {
    1 <= i <= LAST && Enabled(i, d) && forall j :: 1 <= j < i ==> !Enabled(j, d)
  }

  /** Until the first enabled migration nothing happens. */
  lemma {:induction false} NothingBefore<Rows>(k: nat, d: Database<Rows>, engine: Engine<Rows>)
    requires forall j :: 1 <= j <= k ==> !Enabled(j, d)
    ensures Trajectory(k, d, engine) == Some(d)
  {
    hide Enabled, Apply;
    if k > 0 { NothingBefore(k - 1, d, engine); }
  }

  /** No turn that goes through leaves a lower version than it found. */
  ghost predicate NeverFalls<Rows>(d: Database<Rows>, engine: Engine<Rows>) {
    forall k :: 1 <= k <= LAST && Trajectory(k, d, engine).Some? ==>
      Trajectory(k - 1, d, engine).Some?
      && Trajectory(k - 1, d, engine).value.version <= Trajectory(k, d, engine).value.version
  }

  lemma {:induction false} FirstExists<Rows>(i: nat, d: Database<Rows>) returns (j: nat)
    requires 1 <= i <= LAST && Enabled(i, d)
    ensures j <= i && FirstEnabled(j, d)
    decreases i
  {
    hide Enabled;
    if h: nat :| 1 <= h < i && Enabled(h, d) {
      j := FirstExists(h, d);
    } else {
      j := i;
    }
  }

  /** A failed turn is never passed. */
  lemma {:induction false} NoneStaysNone<Rows>(k: nat, m: nat, d: Database<Rows>, engine: Engine<Rows>)
    requires k <= m && Trajectory(m, d, engine).Some?
    ensures Trajectory(k, d, engine).Some?
  {
    hide Enabled, Apply;
    if k < m { NoneStaysNone(k, m - 1, d, engine); }
  }

  /** The first enabled migration runs on the database as it was. */
  lemma FirstTurn<Rows>(i: nat, d: Database<Rows>, engine: Engine<Rows>)
    requires FirstEnabled(i, d)
    ensures Trajectory(i - 1, d, engine) == Some(d) && Trajectory(i, d, engine) == Apply(i, d, engine)
  {
    hide Enabled, Apply;
    NothingBefore(i - 1, d, engine);
  }

  /** If the first enabled migration is not above the version and goes through, it lowers the version. */
  lemma FirstTurnLowers<Rows>(i: nat, d: Database<Rows>, engine: Engine<Rows>)
    requires d.version == Highest(d.ledger) && FirstEnabled(i, d) && i <= d.version
    requires Apply(i, d, engine).Some?
    ensures !NeverFalls(d, engine)
  {
    hide NewSchema, Applicable, Highest, Trajectory;
    FirstTurn(i, d, engine);
    assert d.version in d.ledger;
  }

  /** If it fails, no turn changes anything. */
  lemma FirstTurnFails<Rows>(i: nat, d: Database<Rows>, engine: Engine<Rows>)
    requires FirstEnabled(i, d) && Apply(i, d, engine) == None
    ensures NeverFalls(d, engine)
  {
    hide Apply, Enabled, Trajectory;
    FirstTurn(i, d, engine);
    forall k | 1 <= k <= LAST && Trajectory(k, d, engine).Some?
      ensures Trajectory(k - 1, d, engine) == Some(d) && Trajectory(k, d, engine) == Some(d)
    {
      if i <= k { NoneStaysNone(i, k, d, engine); }
      NothingBefore(k - 1, d, engine);
      NothingBefore(k, d, engine);
    }
  }

  /**
   From a database whose version is the highest recorded one, no turn lowers the version exactly when the first
   migration that is enabled is above the version, or fails.
   */
  lemma VersionsRiseExactly<Rows(!new)>(d: Database<Rows>, engine: Engine<Rows>)
    requires d.version == Highest(d.ledger)
    ensures NeverFalls(d, engine)
       <==> forall i: nat :: i <= d.version && FirstEnabled(i, d) ==> Apply(i, d, engine) == None
  {
    hide Apply, Enabled, Trajectory, Highest, NeverFalls, FirstEnabled;
    if i: nat :| i <= d.version && FirstEnabled(i, d) {
      if Apply(i, d, engine) == None {
        FirstTurnFails(i, d, engine);
        FirstIsUnique(i, d);
      } else {
        FirstTurnLowers(i, d, engine);
      }
    } else {
      forall i | 1 <= i <= LAST && i <= d.version ensures !Enabled(i, d) {
        if Enabled(i, d) { var j := FirstExists(i, d); }
      }
      InOrderNeverFalls(d, engine);
    }
  }

  lemma FirstIsUnique<Rows(!new)>(i: nat, d: Database<Rows>)
    requires FirstEnabled(i, d)
    ensures forall j: nat :: FirstEnabled(j, d) ==> j == i
  {
    hide Enabled;
  }

  lemma InOrderNeverFalls<Rows(!new)>(d: Database<Rows>, engine: Engine<Rows>)
    requires InOrder(d)
    ensures NeverFalls(d, engine)
  {
    hide InOrder, Trajectory;
    forall k | 1 <= k <= LAST && Trajectory(k, d, engine).Some?
      ensures Trajectory(k - 1, d, engine).Some?
              && Trajectory(k - 1, d, engine).value.version <= Trajectory(k, d, engine).value.version
    {
      VersionsRise(k, d, engine);
    }
  }

  /** In a pass that goes through, no turn lowers the version exactly when the database is in order. */
  lemma InOrderExactly<Rows(!new)>(d: Database<Rows>, engine: Engine<Rows>)
    requires d.version == Highest(d.ledger) && Trajectory(LAST, d, engine).Some?
    ensures NeverFalls(d, engine) <==> InOrder(d)
  {
    hide Apply, Enabled, Trajectory, Highest, NeverFalls;
    if InOrder(d) {
      InOrderNeverFalls(d, engine);
    } else {
      var i :| 1 <= i <= LAST && i <= d.version && Enabled(i, d);
      var j := FirstExists(i, d);
      FirstTurn(j, d, engine);
      NoneStaysNone(j, LAST, d, engine);
      VersionsRiseExactly(d, engine);
    }
  }

  // ----- a new database

  /** The tables of the first migration on a database without any. */
  const NEW_SCHEMA: Schema := map[
    ScanRuns := {Id, ExecutedAt},
    Frameworks := {Id, Version},
    Controls := {Id},
    ControlResults := {Id, RunId, ControlId, RuleId, Status, EvidenceId, FrameworkId, Severity, Weight, Reason,
                       ExecutedAt, ExecutionMetadata},
    ComplianceGaps := {Id, RunId, Status, Severity, ControlId, RuleId},
    EvidenceMetadata := {Id, Digest, Locator, Classification},
    RunEvidenceLinks := {RunId, EvidenceId, Kind, Digest, Locator, Classification},
    RunFrameworkLinks := {RunId, FrameworkId, Version, SourceUrl},
    RunControlLinks := {RunId, FrameworkId, ControlId, Title, Severity, Weight, Reference},
    ScoreSummaries := {Id, RunId, FrameworkId, PassCount, FailCount, WarningCount},
    Exports := {Id}]

  lemma CreatesNewSchema()
    ensures InitialSchema(map[]) == NEW_SCHEMA
  {
  }

  /** The same tables with the owner column the evidence table has in the older layout. */
  const OWNED_SCHEMA := NEW_SCHEMA[EvidenceMetadata := {Id, RunId, Digest, Locator, Classification}]

  predicate IsCurrent(s: Schema) {
    s == NEW_SCHEMA || s == OWNED_SCHEMA
  }

  lemma CurrentColumns(s: Schema)
    requires IsCurrent(s)
    ensures HasAll(s, REQUIRED_1) && HasAll(s, GAP_COLUMNS) && HasAll(s, RESULT_COLUMNS) && HasAll(s, RUN_COLUMNS)
  {
  }

  lemma CurrentLinkColumns(s: Schema)
    requires IsCurrent(s)
    ensures HasAll(s, EVIDENCE_LINK_COLUMNS) && HasAll(s, FRAMEWORK_LINK_COLUMNS) && HasAll(s, CONTROL_LINK_COLUMNS)
  {
  }

  lemma CurrentFilterColumns(s: Schema)
    requires IsCurrent(s)
    ensures HasAll(s, EVIDENCE_COLUMNS) && HasAll(s, LINK_COLUMNS) && HasAll(s, CLASSIFICATION_COLUMNS)
  {
  }

  lemma CurrentEvidenceColumns(s: Schema)
    requires IsCurrent(s)
    ensures Has(s, EvidenceMetadata, RunId) <==> s == OWNED_SCHEMA
    ensures Has(s, EvidenceMetadata, Id) && Has(s, EvidenceMetadata, Locator)
    ensures Has(s, EvidenceMetadata, Classification)
    ensures RunEvidenceLinks in s && Has(s, RunEvidenceLinks, RunId) && Has(s, RunEvidenceLinks, EvidenceId)
    ensures Has(s, ScanRuns, Id) && Has(s, ComplianceGaps, RunId)
    ensures Has(s, ControlResults, RunId) && Has(s, ControlResults, Status) && Has(s, ControlResults, EvidenceId)
    ensures Has(s, ControlResults, ControlId)
  {
  }

  lemma HasBoth(s: Schema, a: seq<(Table, Column)>, b: seq<(Table, Column)>)
    requires HasAll(s, a) && HasAll(s, b)
    ensures HasAll(s, a + b)
  {
    hide Has;
  }

  lemma CurrentIsComplete(s: Schema)
    requires IsCurrent(s)
    ensures HasAll(s, REQUIRED_6) && HasAll(s, REQUIRED_8)
  {
    hide Has, HasAll, IsCurrent;
    CurrentColumns(s);
    CurrentLinkColumns(s);
    CurrentFilterColumns(s);
    CurrentEvidenceColumns(s);
    HasBoth(s, REQUIRED_1, GAP_COLUMNS);
    HasBoth(s, REQUIRED_3, EVIDENCE_COLUMNS);
    HasBoth(s, REQUIRED_4, RESULT_COLUMNS);
    HasBoth(s, REQUIRED_5, LINK_COLUMNS);
    HasBoth(s, REQUIRED_6, CLASSIFICATION_COLUMNS);
    HasBoth(s, REQUIRED_7, RUN_COLUMNS);
    HasBoth(s, REQUIRED_7 + RUN_COLUMNS, EVIDENCE_LINK_COLUMNS);
    HasBoth(s, REQUIRED_7 + RUN_COLUMNS + EVIDENCE_LINK_COLUMNS, FRAMEWORK_LINK_COLUMNS);
    HasBoth(s, REQUIRED_7 + RUN_COLUMNS + EVIDENCE_LINK_COLUMNS + FRAMEWORK_LINK_COLUMNS, CONTROL_LINK_COLUMNS);
  }

  /** The first migration creates the current schema, so nothing is enabled after it. */
  lemma FirstIsLast<Rows>(d: Database<Rows>, i: nat)
    requires d.version == 1 && d.ledger == [1] && d.schema == NEW_SCHEMA && 1 <= i <= LAST
    ensures !Enabled(i, d)
  {
    hide Has, HasAll;
    CurrentEvidenceColumns(d.schema);
    CurrentIsComplete(d.schema);
  }

  /** On a new database a pass applies the first migration and no other. */
  lemma {:induction false} NewDatabaseTurns<Rows>(k: nat, rows: Rows, engine: Engine<Rows>)
    requires 1 <= k <= LAST && Trajectory(k, Database(0, [], map[], rows), engine).Some?
    ensures engine.migrate(1, map[], rows).Some?
    ensures Trajectory(k, Database(0, [], map[], rows), engine)
         == Some(Database(1, [1], NEW_SCHEMA, engine.migrate(1, map[], rows).value))
  {
    hide InitialSchema;
    CreatesNewSchema();
    var d := Database(0, [], map[], rows);
    if k == 1 {
      assert Trajectory(0, d, engine) == Some(d);
      assert Enabled(1, d);
      assert [] + [1] == [1];
    } else {
      hide Applicable;
      NewDatabaseTurns(k - 1, rows, engine);
      FirstIsLast(Trajectory(k - 1, d, engine).value, k);
    }
  }

  // ----- out of order

  /**
   Out of order the version falls. Versions 1 and 8 are recorded on the older layout: the second migration is
   enabled, sets the version to 2 and thereby enables the sixth. The database opens, at version 6.
   */
  lemma OutOfOrderVersionFalls<Rows(!new)>(rows: Rows, engine: Engine<Rows>)
    requires engine.migrate(2, OWNED_SCHEMA, rows).Some?
    requires engine.migrate(6, OWNED_SCHEMA, engine.migrate(2, OWNED_SCHEMA, rows).value).Some?
    ensures var d := Database(8, [1, 8], OWNED_SCHEMA, rows);
            && d.version == Highest(d.ledger) && Enabled(2, d) && Invalidity(d) == None
            && Opened(d, engine).1 == None
            && Opened(d, engine).0.version == 6 && Opened(d, engine).0.ledger == [1, 8, 2, 6]
            && Opened(d, engine).0.schema == OWNED_SCHEMA
  {
    hide PassFrom, Has, HasAll;
    CurrentIsComplete(OWNED_SCHEMA);
    var d := Database(8, [1, 8], OWNED_SCHEMA, rows);
    var e := Database(2, [1, 8, 2], OWNED_SCHEMA, engine.migrate(2, OWNED_SCHEMA, rows).value);
    var f := Database(6, [1, 8, 2, 6], OWNED_SCHEMA, engine.migrate(6, OWNED_SCHEMA, e.rows).value);
    HighestOfTwo();
    OwnedTurns(d, e, f, engine);
    Turn(1, d, engine);
    Turn(2, d, engine);
    Turn(3, e, engine);
    Turn(4, e, engine);
    Turn(5, e, engine);
    Turn(6, e, engine);
    DisabledPass(7, f, engine, 2);
  }

  lemma HighestOfTwo()
    ensures Highest([1, 8]) == 8
  {
    assert [1, 8][..1] == [1] && [1][..0] == [];
    assert Highest([1]) == 1;
  }

  lemma Turn<Rows>(i: nat, d: Database<Rows>, engine: Engine<Rows>)
    requires 1 <= i <= LAST
    ensures PassFrom(i, d, engine)
         == if !Enabled(i, d) then PassFrom(i + 1, d, engine)
            else match Apply(i, d, engine)
              case None => (d, false)
              case Some(e) => PassFrom(i + 1, e, engine)
  {
  }

  /** The second and sixth migrations run on this schema, and no other one does. */
  lemma OwnedTurns<Rows>(d: Database<Rows>, e: Database<Rows>, f: Database<Rows>, engine: Engine<Rows>)
    requires d == Database(8, [1, 8], OWNED_SCHEMA, d.rows)
    requires engine.migrate(2, OWNED_SCHEMA, d.rows) == Some(e.rows)
    requires e == Database(2, [1, 8, 2], OWNED_SCHEMA, e.rows)
    requires engine.migrate(6, OWNED_SCHEMA, e.rows) == Some(f.rows)
    requires f == Database(6, [1, 8, 2, 6], OWNED_SCHEMA, f.rows)
    ensures !Enabled(1, d) && Enabled(2, d) && Apply(2, d, engine) == Some(e)
    ensures !Enabled(3, e) && !Enabled(4, e) && !Enabled(5, e) && Enabled(6, e) && Apply(6, e, engine) == Some(f)
    ensures !Enabled(7, f) && !Enabled(8, f)
  {
    hide Has, HasAll, InitialSchema;
    CurrentEvidenceColumns(OWNED_SCHEMA);
    assert [1, 8] + [2] == [1, 8, 2] && [1, 8, 2] + [6] == [1, 8, 2, 6];
  }
}
