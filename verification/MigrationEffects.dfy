/** What the packaged migrations do to a schema, column by column. */
module MigrationEffects {
  import opened Wrappers
  import opened Migrations

  // ----- what each migration brings

  /** The columns migration `i` leaves that need not have been there. */
  function Brings(i: nat, s: Schema): seq<(Table, Column)> {
    match i
    case 2 => MissingLinks(s)
    case 3 => [(ComplianceGaps, RunId), (ComplianceGaps, Status), (ComplianceGaps, Severity),
               (ComplianceGaps, ControlId), (ComplianceGaps, RuleId)]
    case 4 => [(EvidenceMetadata, Locator)]
    case 5 => [(ControlResults, RunId), (ControlResults, ControlId), (ControlResults, RuleId),
               (ControlResults, Status), (ControlResults, EvidenceId)]
              + if Has(s, EvidenceMetadata, Id) then [(EvidenceMetadata, Locator)] else []
    case 6 => MissingLinks(s)
    case 7 => [(EvidenceMetadata, Classification)]
    case 8 => [(ScanRuns, ExecutedAt), (ControlResults, FrameworkId), (ControlResults, Severity),
               (ControlResults, Weight), (ControlResults, Reason), (ControlResults, ExecutedAt),
               (ControlResults, ExecutionMetadata)] + MissingExportTables(s)
              + [(RunEvidenceLinks, Kind), (RunEvidenceLinks, Digest), (RunEvidenceLinks, Locator),
                 (RunEvidenceLinks, Classification), (RunFrameworkLinks, Version), (RunFrameworkLinks, SourceUrl),
                 (RunControlLinks, Title), (RunControlLinks, Severity), (RunControlLinks, Weight),
                 (RunControlLinks, Reference)]
    case _ => []
  }

  /** The columns of the link table where it is missing. */
  function MissingLinks(s: Schema): seq<(Table, Column)> {
    if RunEvidenceLinks in s then [] else [(RunEvidenceLinks, RunId), (RunEvidenceLinks, EvidenceId)]
  }

  /** The key columns of the catalogue link tables where they are missing. */
  function MissingExportTables(s: Schema): seq<(Table, Column)> {
    (if RunFrameworkLinks in s then [] else [(RunFrameworkLinks, RunId), (RunFrameworkLinks, FrameworkId)])
    + if RunControlLinks in s then []
      else [(RunControlLinks, RunId), (RunControlLinks, FrameworkId), (RunControlLinks, ControlId)]
  }

  function Creates(i: nat): set<Table> {
    match i
    case 2 => {RunEvidenceLinks}
    case 6 => {RunEvidenceLinks}
    case 8 => {RunFrameworkLinks, RunControlLinks}
    case _ => {}
  }

  /** `after` is `s` with these columns and tables and nothing else. */
  ghost predicate Extends(s: Schema, after: Schema, columns: seq<(Table, Column)>, tables: set<Table>) {
    && (forall t, c :: Has(after, t, c) <==> Has(s, t, c) || (t, c) in columns)
    && (forall t :: t in after <==> t in s || t in tables)
  }

  /** Every table that the columns are to be added to exists. */
  predicate TablesThere(s: Schema, columns: seq<(Table, Column)>) {
    forall i :: 0 <= i < |columns| ==> columns[i].0 in s
  }

  lemma {:induction false} AddedColumns(s: Schema, columns: seq<(Table, Column)>)
    ensures var after := AllAddedIfMissing(s, columns);
            after.Some? ==> forall t, c :: Has(after.value, t, c) <==> Has(s, t, c) || (t, c) in columns
  {
    if |columns| > 0 {
      var init, last := columns[..|columns| - 1], columns[|columns| - 1];
      AddedColumns(s, init);
      assert columns == init + [last];
      var before, after := AllAddedIfMissing(s, init), AllAddedIfMissing(s, columns);
      if after.Some? {
        forall t, c ensures Has(after.value, t, c) <==> Has(s, t, c) || (t, c) in columns {
          assert Has(after.value, t, c) <==> Has(before.value, t, c) || (t, c) == last;
        }
      }
    }
  }

  lemma {:induction false} AddsExactly(s: Schema, columns: seq<(Table, Column)>)
    ensures AllAddedIfMissing(s, columns).Some? <==> TablesThere(s, columns)
    ensures AllAddedIfMissing(s, columns).Some? ==> AllAddedIfMissing(s, columns).value.Keys == s.Keys
  {
    if |columns| > 0 {
      var init, last := columns[..|columns| - 1], columns[|columns| - 1];
      AddsExactly(s, init);
      assert forall i :: 0 <= i < |init| ==> init[i] == columns[i];
    }
  }

  lemma LinksCreated(s: Schema)
    ensures Extends(s, Created(s, RunEvidenceLinks, {RunId, EvidenceId}), MissingLinks(s), {RunEvidenceLinks})
  {
    var links := MissingLinks(s);
    assert RunEvidenceLinks !in s ==>
             links[0] == (RunEvidenceLinks, RunId) && links[1] == (RunEvidenceLinks, EvidenceId);
  }

  lemma ColumnsAdded(s: Schema, columns: seq<(Table, Column)>)
    requires AllAddedIfMissing(s, columns).Some?
    ensures Extends(s, AllAddedIfMissing(s, columns).value, columns, {})
  {
    hide AllAddedIfMissing, Has;
    AddedColumns(s, columns);
    AddsExactly(s, columns);
  }

  lemma OneAdded(s: Schema, t: Table, c: Column)
    requires AddedIfMissing(s, t, c).Some?
    ensures Extends(s, AddedIfMissing(s, t, c).value, [(t, c)], {})
  {
    OneOfAll(s, t, c);
    ColumnsAdded(s, [(t, c)]);
  }

  lemma OneOfAll(s: Schema, t: Table, c: Column)
    ensures AllAddedIfMissing(s, [(t, c)]) == AddedIfMissing(s, t, c)
  {
    hide AddedIfMissing;
    assert [(t, c)][..0] == [];
    assert AllAddedIfMissing(s, []) == Some(s);
  }

  lemma ExtendsTwice(a: Schema, b: Schema, c: Schema, p: seq<(Table, Column)>, q: seq<(Table, Column)>, x: set<Table>,
                     y: set<Table>)
    requires Extends(a, b, p, x) && Extends(b, c, q, y)
    ensures Extends(a, c, p + q, x + y)
  {
    hide Has;
    forall t, k ensures Has(c, t, k) <==> Has(a, t, k) || (t, k) in p + q {
      assert Has(c, t, k) <==> Has(b, t, k) || (t, k) in q;
      assert Has(b, t, k) <==> Has(a, t, k) || (t, k) in p;
    }
  }

  lemma SameColumns(a: Schema, b: Schema, p: seq<(Table, Column)>, q: seq<(Table, Column)>, x: set<Table>)
    requires Extends(a, b, p, x) && forall m :: m in p <==> m in q
    ensures Extends(a, b, q, x)
  {
    hide Has;
  }

  /** The catalogue link tables where they are missing, with all their columns. */
  function NewExportTables(s: Schema): seq<(Table, Column)> {
    (if RunFrameworkLinks in s then []
     else [(RunFrameworkLinks, RunId), (RunFrameworkLinks, FrameworkId), (RunFrameworkLinks, Version),
           (RunFrameworkLinks, SourceUrl)])
    + if RunControlLinks in s then []
      else [(RunControlLinks, RunId), (RunControlLinks, FrameworkId), (RunControlLinks, ControlId),
            (RunControlLinks, Title), (RunControlLinks, Severity), (RunControlLinks, Weight),
            (RunControlLinks, Reference)]
  }

  lemma ExportTablesCreated(s: Schema)
    ensures var links := Created(s, RunFrameworkLinks, {RunId, FrameworkId, Version, SourceUrl});
            var both :=
              Created(links, RunControlLinks, {RunId, FrameworkId, ControlId, Title, Severity, Weight, Reference});
            Extends(s, both, NewExportTables(s), {RunFrameworkLinks, RunControlLinks})
  {
    var f: seq<(Table, Column)> := if RunFrameworkLinks in s then []
             else [(RunFrameworkLinks, RunId), (RunFrameworkLinks, FrameworkId), (RunFrameworkLinks, Version),
                   (RunFrameworkLinks, SourceUrl)];
    var c: seq<(Table, Column)> := if RunControlLinks in s then []
             else [(RunControlLinks, RunId), (RunControlLinks, FrameworkId), (RunControlLinks, ControlId),
                   (RunControlLinks, Title), (RunControlLinks, Severity), (RunControlLinks, Weight),
                   (RunControlLinks, Reference)];
    var links := Created(s, RunFrameworkLinks, {RunId, FrameworkId, Version, SourceUrl});
    var both := Created(links, RunControlLinks, {RunId, FrameworkId, ControlId, Title, Severity, Weight, Reference});
    TableCreated(s, RunFrameworkLinks, {RunId, FrameworkId, Version, SourceUrl}, f);
    TableCreated(links, RunControlLinks, {RunId, FrameworkId, ControlId, Title, Severity, Weight, Reference}, c);
    ExtendsTwice(s, links, both, f, c, {RunFrameworkLinks}, {RunControlLinks});
    assert {RunFrameworkLinks} + {RunControlLinks} == {RunFrameworkLinks, RunControlLinks};
  }

  lemma TableCreated(s: Schema, t: Table, columns: set<Column>, pairs: seq<(Table, Column)>)
    requires t in s ==> pairs == []
    requires t !in s ==> forall m :: m in pairs <==> m.0 == t && m.1 in columns
    ensures Extends(s, Created(s, t, columns), pairs, {t})
  {
  }

  lemma ResultFiltersBring(s: Schema)
    requires NewSchema(5, s).Some?
    ensures Extends(s, NewSchema(5, s).value, Brings(5, s), {})
  {
    hide AllAddedIfMissing, AddedIfMissing, Extends;
    ColumnsAdded(s, RESULT_COLUMNS);
    var mid := AllAddedIfMissing(s, RESULT_COLUMNS).value;
    IdStays(s, mid);
    if Has(s, EvidenceMetadata, Id) {
      OneAdded(mid, EvidenceMetadata, Locator);
      var after := AddedIfMissing(mid, EvidenceMetadata, Locator).value;
      var none: set<Table> := {};
      ExtendsTwice(s, mid, after, RESULT_COLUMNS, [(EvidenceMetadata, Locator)], none, none);
      assert none + none == none;
    } else {
      assert Brings(5, s) == RESULT_COLUMNS;
    }
  }

  lemma IdStays(s: Schema, mid: Schema)
    requires Extends(s, mid, RESULT_COLUMNS, {})
    ensures Has(mid, EvidenceMetadata, Id) <==> Has(s, EvidenceMetadata, Id)
  {
    assert (EvidenceMetadata, Id) !in RESULT_COLUMNS;
  }

  lemma ExportBrings(s: Schema)
    requires ExportSchema(s).Some?
    ensures Extends(s, ExportSchema(s).value, Brings(8, s), Creates(8))
  {
    hide AllAddedIfMissing, Extends, Created, NewExportTables, Brings;
    ColumnsAdded(s, RUN_COLUMNS);
    var mid := AllAddedIfMissing(s, RUN_COLUMNS).value;
    ExportTablesCreated(mid);
    var links := Created(mid, RunFrameworkLinks, {RunId, FrameworkId, Version, SourceUrl});
    var both := Created(links, RunControlLinks, {RunId, FrameworkId, ControlId, Title, Severity, Weight, Reference});
    ColumnsAdded(both, EXPORT_LINK_COLUMNS);
    var after := AllAddedIfMissing(both, EXPORT_LINK_COLUMNS).value;
    ExtendsTwice(mid, both, after, NewExportTables(mid), EXPORT_LINK_COLUMNS, {RunFrameworkLinks, RunControlLinks}, {});
    ExtendsTwice(s, mid, after, RUN_COLUMNS, NewExportTables(mid) + EXPORT_LINK_COLUMNS, {},
                 {RunFrameworkLinks, RunControlLinks} + {});
    assert {} + ({RunFrameworkLinks, RunControlLinks} + {}) == Creates(8);
    ExportPairs(s, mid);
    SameColumns(s, after, RUN_COLUMNS + (NewExportTables(mid) + EXPORT_LINK_COLUMNS), Brings(8, s), Creates(8));
  }

  lemma ExportPairs(s: Schema, mid: Schema)
    requires Extends(s, mid, RUN_COLUMNS, {})
    ensures forall m :: m in RUN_COLUMNS + (NewExportTables(mid) + EXPORT_LINK_COLUMNS) <==> m in Brings(8, s)
  {
  }

  /** After migration `i`, exactly these columns and tables are there besides what was there before. */
  lemma BringsExactly(i: nat, s: Schema)
    requires 2 <= i <= LAST && NewSchema(i, s).Some?
    ensures Extends(s, NewSchema(i, s).value, Brings(i, s), Creates(i))
  {
    hide AllAddedIfMissing, AddedIfMissing, Added, Created, ExportSchema, InitialSchema, Extends, Brings;
    match i
    case 3 => ColumnsAdded(s, GAP_COLUMNS); PlainBrings(s);
    case 4 => OneAdded(s, EvidenceMetadata, Locator); PlainBrings(s);
    case 5 => ResultFiltersBring(s);
    case 7 => ClassificationBrings(s); PlainBrings(s);
    case 8 => ExportBrings(s);
    case _ => LinksCreated(s); PlainBrings(s);
  }

  lemma PlainBrings(s: Schema)
    ensures Brings(2, s) == MissingLinks(s) == Brings(6, s) && Brings(3, s) == GAP_COLUMNS
    ensures Brings(4, s) == [(EvidenceMetadata, Locator)] && Brings(7, s) == [(EvidenceMetadata, Classification)]
  {
  }

  lemma ClassificationBrings(s: Schema)
    requires Added(s, EvidenceMetadata, Classification).Some?
    ensures Extends(s, Added(s, EvidenceMetadata, Classification).value, [(EvidenceMetadata, Classification)], {})
  {
    assert AddedIfMissing(s, EvidenceMetadata, Classification) == Added(s, EvidenceMetadata, Classification);
    OneAdded(s, EvidenceMetadata, Classification);
  }

  /** The schema changes of migration `i` fail exactly when a table is missing, or its new column is there already. */
  lemma FailsExactly(i: nat, s: Schema)
    requires 2 <= i <= LAST
    ensures NewSchema(i, s) == None <==>
            match i
            case 3 => ComplianceGaps !in s
            case 4 => EvidenceMetadata !in s
            case 5 => ControlResults !in s
            case 7 => EvidenceMetadata !in s || Has(s, EvidenceMetadata, Classification)
            case 8 => ScanRuns !in s || ControlResults !in s || RunEvidenceLinks !in s
            case _ => false
  {
    hide AllAddedIfMissing, Created, ExportSchema, InitialSchema;
    match i
    case 3 =>
      AddsExactly(s, GAP_COLUMNS);
      assert GAP_COLUMNS[0].0 == ComplianceGaps;
    case 5 =>
      AddsExactly(s, RESULT_COLUMNS);
      assert RESULT_COLUMNS[0].0 == ControlResults;
    case 8 => ExportFailsExactly(s);
    case _ =>
  }

  lemma ExportFailsExactly(s: Schema)
    ensures ExportSchema(s) == None <==> ScanRuns !in s || ControlResults !in s || RunEvidenceLinks !in s
  {
    hide AllAddedIfMissing, Created, Extends;
    AddsExactly(s, RUN_COLUMNS);
    assert RUN_COLUMNS[0].0 == ScanRuns && RUN_COLUMNS[1].0 == ControlResults;
    if ScanRuns in s && ControlResults in s {
      var mid := AllAddedIfMissing(s, RUN_COLUMNS).value;
      var links := Created(mid, RunFrameworkLinks, {RunId, FrameworkId, Version, SourceUrl});
      var both := Created(links, RunControlLinks, {RunId, FrameworkId, ControlId, Title, Severity, Weight, Reference});
      CreatedTables(mid);
      AddsExactly(both, EXPORT_LINK_COLUMNS);
      assert EXPORT_LINK_COLUMNS[0].0 == RunEvidenceLinks;
    }
  }

  lemma CreatedTables(s: Schema)
    ensures var links := Created(s, RunFrameworkLinks, {RunId, FrameworkId, Version, SourceUrl});
            var both :=
              Created(links, RunControlLinks, {RunId, FrameworkId, ControlId, Title, Severity, Weight, Reference});
            both.Keys == s.Keys + {RunFrameworkLinks, RunControlLinks}
  {
  }
}
