/** Upgrading: a pass takes every older database to version 8. */
module MigrationUpgrade {
  import opened Wrappers
  import opened Migrations
  import opened MigrationEffects
  import opened MigrationPasses

  // ----- the required columns, written out

  predicate FirstColumns(s: Schema) {
    Has(s, Frameworks, Version) && Has(s, EvidenceMetadata, Digest)
  }

  predicate GapColumns(s: Schema) {
    && Has(s, ComplianceGaps, RunId) && Has(s, ComplianceGaps, Status) && Has(s, ComplianceGaps, Severity)
    && Has(s, ComplianceGaps, ControlId) && Has(s, ComplianceGaps, RuleId)
  }

  predicate EvidenceColumns(s: Schema) {
    && Has(s, ControlResults, ControlId) && Has(s, ControlResults, EvidenceId) && Has(s, EvidenceMetadata, Locator)
  }

  predicate ResultColumns(s: Schema) {
    && Has(s, ControlResults, RunId) && Has(s, ControlResults, ControlId) && Has(s, ControlResults, RuleId)
    && Has(s, ControlResults, Status) && Has(s, ControlResults, EvidenceId)
  }

  predicate LinkColumns(s: Schema) {
    Has(s, RunEvidenceLinks, RunId) && Has(s, RunEvidenceLinks, EvidenceId)
  }

  predicate ExportColumns(s: Schema) {
    && Has(s, ScanRuns, ExecutedAt) && Has(s, ControlResults, FrameworkId) && Has(s, ControlResults, Severity)
    && Has(s, ControlResults, Weight) && Has(s, ControlResults, Reason) && Has(s, ControlResults, ExecutedAt)
    && Has(s, ControlResults, ExecutionMetadata)
    && Has(s, RunEvidenceLinks, Kind) && Has(s, RunEvidenceLinks, Digest) && Has(s, RunEvidenceLinks, Locator)
    && Has(s, RunEvidenceLinks, Classification)
    && Has(s, RunFrameworkLinks, RunId) && Has(s, RunFrameworkLinks, FrameworkId)
    && Has(s, RunFrameworkLinks, Version) && Has(s, RunFrameworkLinks, SourceUrl)
    && Has(s, RunControlLinks, RunId) && Has(s, RunControlLinks, FrameworkId) && Has(s, RunControlLinks, ControlId)
    && Has(s, RunControlLinks, Title) && Has(s, RunControlLinks, Severity) && Has(s, RunControlLinks, Weight)
    && Has(s, RunControlLinks, Reference)
  }

  /** The columns that a schema version must have, by the version that first requires them. */
  predicate HasVersion(s: Schema, version: nat) {
    && FirstColumns(s)
    && (version >= 3 ==> GapColumns(s))
    && (version >= 4 ==> EvidenceColumns(s))
    && (version >= 5 ==> ResultColumns(s))
    && (version >= 6 ==> LinkColumns(s))
    && (version >= 7 ==> Has(s, EvidenceMetadata, Classification))
    && (version >= 8 ==> ExportColumns(s))
  }

  lemma AllOfBoth(s: Schema, a: seq<(Table, Column)>, b: seq<(Table, Column)>)
    ensures HasAll(s, a + b) <==> HasAll(s, a) && HasAll(s, b)
  {
    hide Has;
    forall i | 0 <= i < |a| ensures (a + b)[i] == a[i] {}
    forall i | 0 <= i < |b| ensures (a + b)[|a| + i] == b[i] {}
    if HasAll(s, a + b) {
      forall i | 0 <= i < |b| ensures Has(s, b[i].0, b[i].1) { assert (a + b)[|a| + i] == b[i]; }
    }
  }

  lemma ColumnGroups(s: Schema)
    ensures HasAll(s, REQUIRED_1) <==> FirstColumns(s)
    ensures HasAll(s, GAP_COLUMNS) <==> GapColumns(s)
    ensures HasAll(s, EVIDENCE_COLUMNS) <==> EvidenceColumns(s)
    ensures HasAll(s, RESULT_COLUMNS) <==> ResultColumns(s)
    ensures HasAll(s, LINK_COLUMNS) <==> LinkColumns(s)
    ensures HasAll(s, CLASSIFICATION_COLUMNS) <==> Has(s, EvidenceMetadata, Classification)
  {
    hide Has;
    GroupsAt(s);
  }

  lemma GroupsAt(s: Schema)
    ensures HasAll(s, REQUIRED_1) ==> FirstColumns(s)
    ensures HasAll(s, GAP_COLUMNS) ==> GapColumns(s)
    ensures HasAll(s, EVIDENCE_COLUMNS) ==> EvidenceColumns(s)
    ensures HasAll(s, RESULT_COLUMNS) ==> ResultColumns(s)
    ensures HasAll(s, LINK_COLUMNS) ==> LinkColumns(s)
    ensures HasAll(s, CLASSIFICATION_COLUMNS) ==> Has(s, EvidenceMetadata, Classification)
  {
    hide Has;
    var g, e, r, l, c := GAP_COLUMNS, EVIDENCE_COLUMNS, RESULT_COLUMNS, LINK_COLUMNS, CLASSIFICATION_COLUMNS;
    var f := REQUIRED_1;
    assert HasAll(s, f) ==> Has(s, f[0].0, f[0].1) && Has(s, f[1].0, f[1].1);
    assert HasAll(s, g) ==> Has(s, g[0].0, g[0].1) && Has(s, g[1].0, g[1].1) && Has(s, g[2].0, g[2].1)
                            && Has(s, g[3].0, g[3].1) && Has(s, g[4].0, g[4].1);
    assert HasAll(s, e) ==> Has(s, e[0].0, e[0].1) && Has(s, e[1].0, e[1].1) && Has(s, e[2].0, e[2].1);
    assert HasAll(s, r) ==> Has(s, r[0].0, r[0].1) && Has(s, r[1].0, r[1].1) && Has(s, r[2].0, r[2].1)
                            && Has(s, r[3].0, r[3].1) && Has(s, r[4].0, r[4].1);
    assert HasAll(s, l) ==> Has(s, l[0].0, l[0].1) && Has(s, l[1].0, l[1].1);
    assert HasAll(s, c) ==> Has(s, c[0].0, c[0].1);
  }

  lemma ExportGroups(s: Schema)
    ensures (HasAll(s, RUN_COLUMNS) && HasAll(s, EVIDENCE_LINK_COLUMNS) && HasAll(s, FRAMEWORK_LINK_COLUMNS)
             && HasAll(s, CONTROL_LINK_COLUMNS)) <==> ExportColumns(s)
  {
    hide Has;
    var r, e, f, c := RUN_COLUMNS, EVIDENCE_LINK_COLUMNS, FRAMEWORK_LINK_COLUMNS, CONTROL_LINK_COLUMNS;
    assert HasAll(s, r) ==> Has(s, r[0].0, r[0].1) && Has(s, r[1].0, r[1].1) && Has(s, r[2].0, r[2].1)
                            && Has(s, r[3].0, r[3].1) && Has(s, r[4].0, r[4].1) && Has(s, r[5].0, r[5].1)
                            && Has(s, r[6].0, r[6].1);
    assert HasAll(s, e) ==> Has(s, e[0].0, e[0].1) && Has(s, e[1].0, e[1].1) && Has(s, e[2].0, e[2].1)
                            && Has(s, e[3].0, e[3].1);
    assert HasAll(s, f) ==> Has(s, f[0].0, f[0].1) && Has(s, f[1].0, f[1].1) && Has(s, f[2].0, f[2].1)
                            && Has(s, f[3].0, f[3].1);
    assert HasAll(s, c) ==> Has(s, c[0].0, c[0].1) && Has(s, c[1].0, c[1].1) && Has(s, c[2].0, c[2].1)
                            && Has(s, c[3].0, c[3].1) && Has(s, c[4].0, c[4].1) && Has(s, c[5].0, c[5].1)
                            && Has(s, c[6].0, c[6].1);
  }

  /** The packaged lists of required columns say exactly this. */
  lemma RequiredIs(s: Schema, version: nat)
    requires 1 <= version <= LAST
    ensures HasAll(s, RequiredColumns(version)) <==> HasVersion(s, version)
  {
    hide Has, HasAll, FirstColumns, GapColumns, EvidenceColumns, ResultColumns, LinkColumns, ExportColumns;
    ColumnGroups(s);
    ExportGroups(s);
    AllOfBoth(s, REQUIRED_1, GAP_COLUMNS);
    AllOfBoth(s, REQUIRED_3, EVIDENCE_COLUMNS);
    AllOfBoth(s, REQUIRED_4, RESULT_COLUMNS);
    AllOfBoth(s, REQUIRED_5, LINK_COLUMNS);
    AllOfBoth(s, REQUIRED_6, CLASSIFICATION_COLUMNS);
    AllOfBoth(s, REQUIRED_7, RUN_COLUMNS);
    AllOfBoth(s, REQUIRED_7 + RUN_COLUMNS, EVIDENCE_LINK_COLUMNS);
    AllOfBoth(s, REQUIRED_7 + RUN_COLUMNS + EVIDENCE_LINK_COLUMNS, FRAMEWORK_LINK_COLUMNS);
    AllOfBoth(s, REQUIRED_7 + RUN_COLUMNS + EVIDENCE_LINK_COLUMNS + FRAMEWORK_LINK_COLUMNS, CONTROL_LINK_COLUMNS);
  }

  // ----- from any older version to the last one

  /**
   A database layout that upgrades: tables have their ids, a table that has the columns a guard looks at has the
   whole group, a link table has its key, and some column of the last version is missing.
   */
  predicate Older(s: Schema) {
    && Has(s, ScanRuns, Id) && Has(s, ControlResults, Id) && Has(s, ComplianceGaps, Id) && Has(s, EvidenceMetadata, Id)
    && (Has(s, ComplianceGaps, RunId) ==> GapColumns(s))
    && (Has(s, ControlResults, RunId) && Has(s, ControlResults, Status) ==> ResultColumns(s))
    && (RunEvidenceLinks in s ==> LinkColumns(s))
    && (RunFrameworkLinks in s ==> Has(s, RunFrameworkLinks, RunId) && Has(s, RunFrameworkLinks, FrameworkId))
    && (RunControlLinks in s ==> Has(s, RunControlLinks, RunId) && Has(s, RunControlLinks, FrameworkId)
                                 && Has(s, RunControlLinks, ControlId))
    && !ExportColumns(s)
  }

  /** Where a pass stands after `k` turns. */
  ghost predicate Stage<Rows>(k: nat, d: Database<Rows>) {
    var s := d.schema;
    && 1 <= d.version <= 7 && d.version in d.ledger && Older(s) && HasVersion(s, d.version)
    && (k >= 3 ==> GapColumns(s))
    && (k >= 4 ==> Has(s, EvidenceMetadata, Locator) || !ResultColumns(s))
    && (k >= 5 ==> ResultColumns(s) && EvidenceColumns(s))
    && (k >= 6 ==> LinkColumns(s))
    && (k >= 7 ==> Has(s, EvidenceMetadata, Classification))
  }

  ghost predicate Contains(after: Schema, s: Schema) {
    forall t, c :: Has(s, t, c) ==> Has(after, t, c)
  }

  lemma VersionStays(s: Schema, after: Schema, version: nat)
    requires Contains(after, s) && HasVersion(s, version)
    ensures HasVersion(after, version)
  {
    hide Has;
  }

  /** The columns only the last migration brings. */
  predicate IsExportColumn(t: Table, c: Column) {
    match t
    case ScanRuns => c == ExecutedAt
    case ControlResults => c in {FrameworkId, Severity, Weight, Reason, ExecutedAt, ExecutionMetadata}
    case RunEvidenceLinks => c in {Kind, Digest, Locator, Classification}
    case RunFrameworkLinks => true
    case RunControlLinks => true
    case _ => false
  }

  lemma EarlierBringNone(i: nat, s: Schema, t: Table, c: Column)
    requires 2 <= i <= 7 && IsExportColumn(t, c)
    ensures (t, c) !in Brings(i, s)
  {
    hide IsExportColumn;
    FiltersAreNoExports(t, c);
    OthersAreNoExports(t, c);
    var filters := if Has(s, EvidenceMetadata, Id) then [(EvidenceMetadata, Locator)] else [];
    assert Brings(5, s) == RESULT_COLUMNS + filters;
  }

  lemma FiltersAreNoExports(t: Table, c: Column)
    requires IsExportColumn(t, c)
    ensures (t, c) !in GAP_COLUMNS && (t, c) !in RESULT_COLUMNS
  {
    assert (t, c) in GAP_COLUMNS ==> t == ComplianceGaps;
    assert (t, c) in RESULT_COLUMNS ==> t == ControlResults && c in {RunId, ControlId, RuleId, Status, EvidenceId};
  }

  lemma OthersAreNoExports(t: Table, c: Column)
    requires IsExportColumn(t, c)
    ensures t != EvidenceMetadata && (t, c) != (RunEvidenceLinks, RunId) && (t, c) != (RunEvidenceLinks, EvidenceId)
  {
  }

  lemma ExportColumnMissing(s: Schema, after: Schema)
    requires !ExportColumns(s)
    requires forall t, c :: IsExportColumn(t, c) ==> (Has(after, t, c) <==> Has(s, t, c))
    ensures !ExportColumns(after)
  {
    hide Has;
  }

  /** A migration before the last leaves a layout that upgrades. */
  lemma OlderStays(i: nat, s: Schema)
    requires 2 <= i <= 7 && Older(s) && NewSchema(i, s).Some?
    ensures Older(NewSchema(i, s).value) && Contains(NewSchema(i, s).value, s)
  {
    hide NewSchema, ExportColumns, IsExportColumn, Has;
    var after := NewSchema(i, s).value;
    BringsExactly(i, s);
    forall t, c | IsExportColumn(t, c) ensures Has(after, t, c) <==> Has(s, t, c) { EarlierBringNone(i, s, t, c); }
    ExportColumnMissing(s, after);
    GroupsStayWhole(i, s, after);
    LinkTablesStay(i, s, after);
  }

  lemma GroupsStayWhole(i: nat, s: Schema, after: Schema)
    requires 2 <= i <= 7 && Older(s) && Extends(s, after, Brings(i, s), Creates(i))
    ensures Has(after, ComplianceGaps, RunId) ==> GapColumns(after)
    ensures Has(after, ControlResults, RunId) && Has(after, ControlResults, Status) ==> ResultColumns(after)
  {
    hide Has, ExportColumns;
  }

  lemma LinkTablesStay(i: nat, s: Schema, after: Schema)
    requires 2 <= i <= 7 && Older(s) && Extends(s, after, Brings(i, s), Creates(i))
    ensures RunEvidenceLinks in after ==> LinkColumns(after)
    ensures RunFrameworkLinks in after ==>
              Has(after, RunFrameworkLinks, RunId) && Has(after, RunFrameworkLinks, FrameworkId)
    ensures RunControlLinks in after ==>
              Has(after, RunControlLinks, RunId) && Has(after, RunControlLinks, FrameworkId)
              && Has(after, RunControlLinks, ControlId)
  {
    hide Has, ExportColumns;
  }

  /** Rows never stop a migration. */
  ghost predicate NeverFails<Rows(!new)>(engine: Engine<Rows>) {
    forall i, s, rows :: engine.migrate(i, s, rows).Some?
  }

  lemma NotAbove<Rows>(d: Database<Rows>)
    requires InOrder(d)
    ensures forall j :: j in d.ledger ==> j <= d.version
  {
  }

  /** What turn `k` leaves if its migration runs. */
  lemma EnabledTurn<Rows(!new)>(k: nat, d: Database<Rows>, engine: Engine<Rows>)
    requires 1 <= k <= 7 && Stage(k - 1, d) && InOrder(d) && NeverFails(engine) && Enabled(k, d)
    ensures match Apply(k, d, engine) case None => false case Some(e) => Stage(k, e)
  {
    hide NewSchema, Older, HasVersion, Brings, Has;
    var s := d.schema;
    NotAbove(d);
    assert k > d.version;
    TablesOf(d);
    FailsExactly(k, s);
    var after := NewSchema(k, s).value;
    OlderStays(k, s);
    VersionStays(s, after, d.version);
    BringsExactly(k, s);
    assert engine.migrate(k, s, d.rows).Some?;
    Brought(k, d, after);
  }

  lemma TablesOf<Rows>(d: Database<Rows>)
    requires Older(d.schema)
    ensures ScanRuns in d.schema && ControlResults in d.schema && ComplianceGaps in d.schema
            && EvidenceMetadata in d.schema
  {
  }

  /** The version of a migration that ran has its columns. */
  lemma Brought<Rows>(k: nat, d: Database<Rows>, after: Schema)
    requires 2 <= k <= 7 && Stage(k - 1, d) && Applicable(k, d) && Contains(after, d.schema) && Older(after)
    requires Extends(d.schema, after, Brings(k, d.schema), Creates(k))
    ensures HasVersion(after, k) && Stage(k, Database(k, d.ledger + [k], after, d.rows))
  {
    hide Has, Contains;
  }

  /** What turn `k` leaves if its migration does not run. */
  lemma DisabledTurn<Rows(!new)>(k: nat, d: Database<Rows>)
    requires 1 <= k <= 7 && Stage(k - 1, d) && InOrder(d) && !Enabled(k, d)
    ensures Stage(k, d)
  {
    hide Has, ExportColumns, HasAll;
    NotAbove(d);
    RequiredIs(d.schema, 6);
    if k in d.ledger { assert d.version >= k; }
  }

  /** After seven turns the last migration runs and leaves version 8 with its columns. */
  lemma LastTurn<Rows(!new)>(d: Database<Rows>, engine: Engine<Rows>)
    requires Stage(7, d) && InOrder(d) && NeverFails(engine)
    ensures Enabled(8, d)
    ensures match Apply(8, d, engine)
            case None => false
            case Some(e) => e.version == 8 && 8 in e.ledger && HasVersion(e.schema, 8) && Contains(e.schema, d.schema)
  {
    hide NewSchema, HasAll, Brings;
    var s := d.schema;
    NotAbove(d);
    RequiredIs(s, 7);
    RequiredIs(s, 8);
    TablesOf(d);
    FailsExactly(8, s);
    assert engine.migrate(8, s, d.rows).Some?;
    BringsExactly(8, s);
    ExportsBrought(s, NewSchema(8, s).value);
  }

  lemma ExportsBrought(s: Schema, after: Schema)
    requires HasVersion(s, 7) && Older(s) && Extends(s, after, Brings(8, s), Creates(8))
    ensures HasVersion(after, 8) && Contains(after, s)
  {
    hide Has;
  }

  lemma {:induction false} UpgradeTurns<Rows(!new)>(k: nat, d: Database<Rows>, engine: Engine<Rows>)
    requires k <= 7 && InOrder(d) && Stage(0, d) && NeverFails(engine)
    ensures match Trajectory(k, d, engine)
            case None => false
            case Some(e) => Stage(k, e) && InOrder(e) && Contains(e.schema, d.schema)
  {
    hide Stage, InOrder, Enabled, Apply;
    if k > 0 {
      UpgradeTurns(k - 1, d, engine);
      var before := Trajectory(k - 1, d, engine).value;
      if Enabled(k, before) {
        EnabledTurn(k, before, engine);
        TurnKeeps(k, before, engine);
      } else {
        DisabledTurn(k, before);
      }
      VersionsRise(k, d, engine);
    }
  }

  lemma TurnKeeps<Rows(!new)>(k: nat, d: Database<Rows>, engine: Engine<Rows>)
    requires 1 <= k <= 7 && Stage(k - 1, d) && InOrder(d) && Enabled(k, d) && Apply(k, d, engine).Some?
    ensures Contains(Apply(k, d, engine).value.schema, d.schema)
  {
    hide NewSchema, Older, HasVersion, Has;
    NotAbove(d);
    OlderStays(k, d.schema);
  }

  /**
   From every database in order at one of the versions 1 to 7, with the columns of its version and a layout that
   upgrades, a pass ends at version 8 with the columns of version 8 and every column there was before, and opens.
   */
  lemma EveryVersionUpgrades<Rows(!new)>(d: Database<Rows>, engine: Engine<Rows>)
    requires InOrder(d) && 1 <= d.version <= 7 && Older(d.schema) && HasVersion(d.schema, d.version)
    requires NeverFails(engine)
    ensures var (after, error) := Opened(d, engine);
            && error == None && after.version == 8 && 8 in after.ledger
            && HasVersion(after.schema, 8) && Contains(after.schema, d.schema)
  {
    hide PassFrom, Enabled, Apply, Older, HasVersion, Contains;
    assert Stage(0, d);
    UpgradeTurns(7, d, engine);
    var before := Trajectory(7, d, engine).value;
    LastTurn(before, engine);
    assert Trajectory(8, d, engine) == Apply(8, before, engine);
    PassIsTrajectory(1, d, engine, LAST);
    var after := PassFrom(1, d, engine).0;
    RequiredIs(after.schema, 8);
    ContainsTwice(d.schema, before.schema, after.schema);
  }

  lemma ContainsTwice(a: Schema, b: Schema, c: Schema)
    requires Contains(b, a) && Contains(c, b)
    ensures Contains(c, a)
  {
    hide Has;
  }

  /** Which migrations are enabled in such a database: above its version, not yet there, and with what they build on. */
  lemma EnabledExactly<Rows(!new)>(d: Database<Rows>)
    requires InOrder(d) && 1 <= d.version <= 7 && Older(d.schema) && HasVersion(d.schema, d.version)
    ensures var s, v := d.schema, d.version;
            && !Enabled(1, d)
            && (Enabled(2, d) <==> v < 2 && Has(s, EvidenceMetadata, RunId))
            && (Enabled(3, d) <==> v < 3 && !GapColumns(s))
            && (Enabled(4, d) <==> v < 4 && Has(s, ControlResults, ControlId) && Has(s, ControlResults, EvidenceId)
                                   && !EvidenceColumns(s))
            && (Enabled(5, d) <==> v < 5 && !ResultColumns(s))
            && (Enabled(6, d) <==> v < 6 && Has(s, ControlResults, RunId) && Has(s, ControlResults, EvidenceId)
                                   && (v > 1 || !LinkColumns(s)))
            && (Enabled(7, d) <==> v < 7 && HasVersion(s, 6) && !HasVersion(s, 7))
            && (Enabled(8, d) <==> HasVersion(s, 7) && !HasVersion(s, 8))
  {
    hide Has, HasAll;
    NotAbove(d);
    RequiredIs(d.schema, 6);
    RequiredIs(d.schema, 7);
    RequiredIs(d.schema, 8);
    assert forall j :: d.version < j ==> j !in d.ledger;
    assert d.version in d.ledger;
  }

  /**
   What opening answers, for every database: a newer one is refused untouched; else the pass decides, and after it
   the version must be recorded, not zero, and its columns there.
   */
  lemma OpenVerdict<Rows(!new)>(d: Database<Rows>, engine: Engine<Rows>)
    ensures var (after, error) := Opened(d, engine);
            if d.version > 8 then after == d && error == Some(NewerVersion)
            else match Trajectory(8, d, engine)
              case None => error == Some(MigrationFailed)
              case Some(e) =>
                && after == e
                && (error == Some(UnrecordedVersion) <==> e.version > 0 && e.version !in e.ledger)
                && (error == Some(Uninitialized) <==> e.version == 0)
                && (error == Some(MissingColumns) <==>
                      e.version > 0 && e.version in e.ledger && !HasVersion(e.schema, e.version))
                && (error == None <==> e.version > 0 && e.version in e.ledger && HasVersion(e.schema, e.version))
  {
    hide PassFrom, Enabled, Apply, HasVersion, HasAll, Trajectory;
    if d.version <= LAST {
      StartOfTrajectory(d, engine);
      PassIsTrajectory(1, d, engine, LAST);
      VersionsStayPackaged(1, d, engine, LAST);
      var after := PassFrom(1, d, engine).0;
      if after.version > 0 { RequiredIs(after.schema, after.version); }
    }
  }

  lemma StartOfTrajectory<Rows(!new)>(d: Database<Rows>, engine: Engine<Rows>)
    ensures Trajectory(0, d, engine) == Some(d)
  {
  }

  // ----- the oldest layout

  /** The tables of a version 1 database as it was first created. */
  const FIRST_LAYOUT: Schema := map[
    ScanRuns := {Id}, Frameworks := {Id, Version}, Controls := {Id}, ControlResults := {Id}, ComplianceGaps := {Id},
    EvidenceMetadata := {Id, RunId, Digest}, ScoreSummaries := {Id}, Exports := {Id}]

  lemma FirstLayoutUpgrades<Rows(!new)>(rows: Rows, engine: Engine<Rows>)
    requires NeverFails(engine)
    ensures var d := Database(1, [1], FIRST_LAYOUT, rows);
            && Opened(d, engine).1 == None && Opened(d, engine).0.version == 8
            && HasVersion(Opened(d, engine).0.schema, 8)
  {
    hide PassFrom, HasVersion, Contains, NewSchema;
    var d := Database(1, [1], FIRST_LAYOUT, rows);
    FirstLayoutIsOlder();
    assert Highest([1]) == 1;
    EveryVersionUpgrades(d, engine);
  }

  lemma FirstLayoutIsOlder()
    ensures Older(FIRST_LAYOUT) && HasVersion(FIRST_LAYOUT, 1)
  {
  }
}
