/** The packaged migrations of the local database: guards, schema effects and one pass (src/local_db.rs). */
module Migrations {
  import opened Wrappers

  // ----- schemas

  datatype Table =
    | ScanRuns | Frameworks | Controls | ControlResults | ComplianceGaps | EvidenceMetadata | RunEvidenceLinks
    | RunFrameworkLinks | RunControlLinks | ScoreSummaries | Exports | OtherTable(name: string)

  datatype Column =
    | Id | ExecutedAt | Version | RunId | ControlId | RuleId | Status | EvidenceId | FrameworkId | Severity | Weight
    | Reason | ExecutionMetadata | Digest | Locator | Classification | Kind | SourceUrl | Title | Reference
    | PassCount | FailCount | WarningCount | OtherColumn(name: string)

  type Schema = map<Table, set<Column>>

  predicate Has(s: Schema, t: Table, c: Column) {
    t in s && c in s[t]
  }

  predicate HasAll(s: Schema, columns: seq<(Table, Column)>) {
    forall i :: 0 <= i < |columns| ==> Has(s, columns[i].0, columns[i].1)
  }

  /** `CREATE TABLE IF NOT EXISTS` */
  function Created(s: Schema, t: Table, columns: set<Column>): Schema {
    if t in s then s else s[t := columns]
  }

  /** `ALTER TABLE … ADD COLUMN`; it fails on a missing table and on a present column. */
  function Added(s: Schema, t: Table, c: Column): Option<Schema> {
    if t !in s || c in s[t] then None else Some(s[t := s[t] + {c}])
  }

  function AddedIfMissing(s: Schema, t: Table, c: Column): Option<Schema> {
    if Has(s, t, c) then Some(s) else Added(s, t, c)
  }

  function AllAddedIfMissing(s: Schema, columns: seq<(Table, Column)>): Option<Schema> {
    if |columns| == 0 then Some(s)
    else match AllAddedIfMissing(s, columns[..|columns| - 1])
      case None => None
      case Some(init) => AddedIfMissing(init, columns[|columns| - 1].0, columns[|columns| - 1].1)
  }

  // ----- required columns of each schema version

  const REQUIRED_1: seq<(Table, Column)> := [(Frameworks, Version), (EvidenceMetadata, Digest)]

  const GAP_COLUMNS: seq<(Table, Column)> := [
    (ComplianceGaps, RunId), (ComplianceGaps, Status), (ComplianceGaps, Severity), (ComplianceGaps, ControlId),
    (ComplianceGaps, RuleId)]

  const RESULT_COLUMNS: seq<(Table, Column)> := [
    (ControlResults, RunId), (ControlResults, ControlId), (ControlResults, RuleId), (ControlResults, Status),
    (ControlResults, EvidenceId)]

  const REQUIRED_3 := REQUIRED_1 + GAP_COLUMNS

  const EVIDENCE_COLUMNS: seq<(Table, Column)> := [
    (ControlResults, ControlId), (ControlResults, EvidenceId), (EvidenceMetadata, Locator)]

  const LINK_COLUMNS: seq<(Table, Column)> := [(RunEvidenceLinks, RunId), (RunEvidenceLinks, EvidenceId)]

  const CLASSIFICATION_COLUMNS: seq<(Table, Column)> := [(EvidenceMetadata, Classification)]

  const REQUIRED_4 := REQUIRED_3 + EVIDENCE_COLUMNS

  const REQUIRED_5 := REQUIRED_4 + RESULT_COLUMNS

  const REQUIRED_6 := REQUIRED_5 + LINK_COLUMNS

  const REQUIRED_7 := REQUIRED_6 + CLASSIFICATION_COLUMNS

  const RUN_COLUMNS: seq<(Table, Column)> := [
    (ScanRuns, ExecutedAt), (ControlResults, FrameworkId), (ControlResults, Severity), (ControlResults, Weight),
    (ControlResults, Reason), (ControlResults, ExecutedAt), (ControlResults, ExecutionMetadata)]

  const EVIDENCE_LINK_COLUMNS: seq<(Table, Column)> := [
    (RunEvidenceLinks, Kind), (RunEvidenceLinks, Digest), (RunEvidenceLinks, Locator),
    (RunEvidenceLinks, Classification)]

  const FRAMEWORK_LINK_COLUMNS: seq<(Table, Column)> := [
    (RunFrameworkLinks, RunId), (RunFrameworkLinks, FrameworkId), (RunFrameworkLinks, Version),
    (RunFrameworkLinks, SourceUrl)]

  const CONTROL_LINK_COLUMNS: seq<(Table, Column)> := [
    (RunControlLinks, RunId), (RunControlLinks, FrameworkId), (RunControlLinks, ControlId), (RunControlLinks, Title),
    (RunControlLinks, Severity), (RunControlLinks, Weight), (RunControlLinks, Reference)]

  const REQUIRED_8 :=
    REQUIRED_7 + RUN_COLUMNS + EVIDENCE_LINK_COLUMNS + FRAMEWORK_LINK_COLUMNS + CONTROL_LINK_COLUMNS

  function RequiredColumns(version: nat): seq<(Table, Column)> {
    match version
    case 1 => REQUIRED_1
    case 2 => REQUIRED_1
    case 3 => REQUIRED_3
    case 4 => REQUIRED_4
    case 5 => REQUIRED_5
    case 6 => REQUIRED_6
    case 7 => REQUIRED_7
    case _ => REQUIRED_8
  }

  // ----- the database as the migration runner sees it

  const LAST: nat := 8

  /** `ledger` lists the recorded versions in the order they were recorded; `rows` is everything else. */
  datatype Database<Rows> = Database(version: nat, ledger: seq<nat>, schema: Schema, rows: Rows)

  /** The effect of a migration's statements on rows, or their failure, as a function of what they run on. */
  datatype Engine<!Rows> = Engine(migrate: (nat, Schema, Rows) -> Option<Rows>)

  /** `migration_is_applicable` */
  predicate Applicable<Rows>(i: nat, d: Database<Rows>) {
    var s := d.schema;
    match i
    case 2 => Has(s, EvidenceMetadata, RunId)
    case 3 => Has(s, ComplianceGaps, Id) && !Has(s, ComplianceGaps, RunId)
    case 4 =>
      && Has(s, EvidenceMetadata, Id) && Has(s, ControlResults, ControlId) && Has(s, ControlResults, EvidenceId)
      && !Has(s, EvidenceMetadata, Locator)
    case 5 =>
      Has(s, ControlResults, Id) && (!Has(s, ControlResults, RunId) || !Has(s, ControlResults, Status))
    case 6 =>
      var linkColumnsMissing := !Has(s, RunEvidenceLinks, RunId) || !Has(s, RunEvidenceLinks, EvidenceId);
      var canBackfill :=
        Has(s, ScanRuns, Id) && Has(s, EvidenceMetadata, Id) && Has(s, ControlResults, RunId)
        && Has(s, ControlResults, EvidenceId);
      1 <= d.version < 6 && d.version in d.ledger && canBackfill && (d.version > 1 || linkColumnsMissing)
    case 7 =>
      && 1 <= d.version < 7 && d.version in d.ledger && HasAll(s, REQUIRED_6)
      && !Has(s, EvidenceMetadata, Classification)
    case 8 =>
      && 1 <= d.version < 8 && d.version in d.ledger && HasAll(s, REQUIRED_7) && !HasAll(s, REQUIRED_8)
    case _ => true
  }

  predicate Enabled<Rows>(i: nat, d: Database<Rows>) {
    i !in d.ledger && Applicable(i, d)
  }

  function InitialSchema(s: Schema): Schema {
    var s := Created(s, ScanRuns, {Id, ExecutedAt});
    var s := Created(s, Frameworks, {Id, Version});
    var s := Created(s, Controls, {Id});
    var s := Created(s, ControlResults, {Id, RunId, ControlId, RuleId, Status, EvidenceId, FrameworkId, Severity,
                                         Weight, Reason, ExecutedAt, ExecutionMetadata});
    var s := Created(s, ComplianceGaps, {Id, RunId, Status, Severity, ControlId, RuleId});
    var s := Created(s, EvidenceMetadata, {Id, Digest, Locator, Classification});
    var s := Created(s, RunEvidenceLinks, {RunId, EvidenceId, Kind, Digest, Locator, Classification});
    var s := Created(s, RunFrameworkLinks, {RunId, FrameworkId, Version, SourceUrl});
    var s := Created(s, RunControlLinks, {RunId, FrameworkId, ControlId, Title, Severity, Weight, Reference});
    var s := Created(s, ScoreSummaries, {Id, RunId, FrameworkId, PassCount, FailCount, WarningCount});
    Created(s, Exports, {Id})
  }

  /** What the statements of a migration do to the schema; `None` when an `ALTER TABLE` fails. */
  function NewSchema(i: nat, s: Schema): Option<Schema> {
    match i
    case 1 => Some(InitialSchema(s))
    case 2 => Some(Created(s, RunEvidenceLinks, {RunId, EvidenceId}))
    case 3 => AllAddedIfMissing(s, GAP_COLUMNS)
    case 4 => AddedIfMissing(s, EvidenceMetadata, Locator)
    case 5 =>
      (match AllAddedIfMissing(s, RESULT_COLUMNS)
       case None => None
       case Some(s) =>
         if Has(s, EvidenceMetadata, Id) then AddedIfMissing(s, EvidenceMetadata, Locator) else Some(s))
    case 6 => Some(Created(s, RunEvidenceLinks, {RunId, EvidenceId}))
    case 7 => Added(s, EvidenceMetadata, Classification)
    case 8 => ExportSchema(s)
    case _ => Some(s)
  }

  const EXPORT_LINK_COLUMNS: seq<(Table, Column)> := [
    (RunEvidenceLinks, Kind), (RunEvidenceLinks, Digest), (RunEvidenceLinks, Locator),
    (RunEvidenceLinks, Classification), (RunFrameworkLinks, Version), (RunFrameworkLinks, SourceUrl),
    (RunControlLinks, Title), (RunControlLinks, Severity), (RunControlLinks, Weight), (RunControlLinks, Reference)]

  function ExportSchema(s: Schema): Option<Schema> {
    match AllAddedIfMissing(s, RUN_COLUMNS)
    case None => None
    case Some(s) =>
      var s := Created(s, RunFrameworkLinks, {RunId, FrameworkId, Version, SourceUrl});
      var s := Created(s, RunControlLinks, {RunId, FrameworkId, ControlId, Title, Severity, Weight, Reference});
      AllAddedIfMissing(s, EXPORT_LINK_COLUMNS)
  }

  /** A migration's transaction: all of it, with its record and version, or nothing. */
  function Apply<Rows>(i: nat, d: Database<Rows>, engine: Engine<Rows>): Option<Database<Rows>> {
    match NewSchema(i, d.schema)
    case None => None
    case Some(schema) =>
      match engine.migrate(i, d.schema, d.rows)
      case None => None
      case Some(rows) => Some(Database(i, d.ledger + [i], schema, rows))
  }

  /** The turns from `i` on: what they leave, and whether all of them went through. */
  function PassFrom<Rows>(i: nat, d: Database<Rows>, engine: Engine<Rows>): (Database<Rows>, bool)
    decreases LAST + 1 - i
  {
    if i > LAST then (d, true)
    else if !Enabled(i, d) then PassFrom(i + 1, d, engine)
    else match Apply(i, d, engine)
      case None => (d, false)
      case Some(e) => PassFrom(i + 1, e, engine)
  }

  // ----- opening a database

  datatype OpenError = NewerVersion | MigrationFailed | UnrecordedVersion | Uninitialized | MissingColumns

  /** `validate_current_schema` */
  function Invalidity<Rows>(d: Database<Rows>): Option<OpenError> {
    if d.version != 0 && d.version !in d.ledger then Some(UnrecordedVersion)
    else if d.version == 0 then Some(Uninitialized)
    else if !HasAll(d.schema, RequiredColumns(d.version)) then Some(MissingColumns)
    else None
  }

  /** What opening leaves in the database, and why it fails, if it does. */
  function Opened<Rows>(d: Database<Rows>, engine: Engine<Rows>): (Database<Rows>, Option<OpenError>) {
    if d.version > LAST then (d, Some(NewerVersion))
    else
      var (after, ok) := PassFrom(1, d, engine);
      (after, if ok then Invalidity(after) else Some(MigrationFailed))
  }

  class Connection<Rows(!new)> {
    var db: Database<Rows>

    constructor (d: Database<Rows>)
      ensures db == d
    {
      db := d;
    }

    /** One migration under the write lock, with its record checked again. */
    method ApplyPackagedMigration(i: nat, engine: Engine<Rows>) returns (ok: bool)
      modifies this
      ensures ok <==> i in old(db.ledger) || Apply(i, old(db), engine).Some?
      ensures db == if !ok || i in old(db.ledger) then old(db) else Apply(i, old(db), engine).value
    {
      if i in db.ledger {
        return true;
      }
      var schema := NewSchema(i, db.schema);
      if schema == None {
        return false;
      }
      var rows := engine.migrate(i, db.schema, db.rows);
      match rows {
        case None => return false;
        case Some(after) =>
          db := db.(schema := schema.value, rows := after);
          db := db.(ledger := db.ledger + [i]);
          db := db.(version := i);
          return true;
      }
    }

    method ApplyPackagedMigrations(engine: Engine<Rows>) returns (ok: bool)
      modifies this
      ensures (db, ok) == PassFrom(1, old(db), engine)
    {
      for i := 1 to LAST + 1
        invariant PassFrom(i, db, engine) == PassFrom(1, old(db), engine)
      {
        if i !in db.ledger && Applicable(i, db) {
          var applied := ApplyPackagedMigration(i, engine);
          if !applied {
            return false;
          }
        }
      }
      return true;
    }

    method Open(engine: Engine<Rows>) returns (error: Option<OpenError>)
      modifies this
      ensures (db, error) == Opened(old(db), engine)
    {
      if db.version > LAST {
        return Some(NewerVersion);
      }
      var ok := ApplyPackagedMigrations(engine);
      if !ok {
        return Some(MigrationFailed);
      }
      return Invalidity(db);
    }
  }

  // ----- packaged versions

  datatype VersionError = Descending(version: nat, previous: nat) | Duplicate(version: nat) | NoMigrations

  predicate Ascending(versions: seq<nat>) {
    forall i, j :: 0 <= i < j < |versions| ==> versions[i] < versions[j]
  }

  /** The current version of a packaged list: its greatest, provided the list ascends. */
  method CurrentPackagedSchemaVersion(versions: seq<nat>) returns (r: Result<nat, VersionError>)
    ensures r.Ok? <==> |versions| > 0 && Ascending(versions)
    ensures r.Ok? ==> r.value in versions && forall i :: 0 <= i < |versions| ==> versions[i] <= r.value
    ensures r == Err(NoMigrations) <==> versions == []
    ensures r.Err? && r.error.Duplicate? ==>
              exists i :: 0 < i < |versions| && versions[i - 1] == versions[i] == r.error.version
    ensures r.Err? && r.error.Descending? ==>
              exists i :: 0 < i < |versions| && r.error == Descending(versions[i], versions[i - 1])
                          && versions[i] < versions[i - 1]
  {
    var previous: Option<nat> := None;
    for i := 0 to |versions|
      invariant Ascending(versions[..i])
      invariant previous == if i == 0 then None else Some(versions[i - 1])
    {
      if previous.Some? {
        if versions[i] < previous.value {
          return Err(Descending(versions[i], previous.value));
        } else if versions[i] == previous.value {
          return Err(Duplicate(previous.value));
        }
      }
      previous := Some(versions[i]);
      assert forall j :: 0 <= j < i ==> versions[..i][j] <= versions[i - 1] < versions[i];
    }
    if previous == None {
      return Err(NoMigrations);
    }
    assert versions[..|versions|] == versions;
    return Ok(previous.value);
  }
}
