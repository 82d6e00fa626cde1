/** Which texts the migration runner refuses, said about their tokens. */
module SqlDestruction {
  import opened Wrappers
  import opened SqlTokens
  import opened SqlRenderings
  import Migrations
  import MigrationPasses

  /** A table as a statement names it: alone, or behind a schema name and a dot. */
  datatype Target = Alone(table: string) | InSchema(schema: string, table: string)

  datatype Statement =
    | DropTable(ifExists: bool, target: Target)
    | DropColumn(target: Target, dropped: string)
    | Rename(target: Target)

  /** A character's code point, that of the small letter for `A` to `Z`. */
  function SmallCode(c: char): int {
    if 0x41 <= c as int <= 0x5A then c as int + 0x20 else c as int
  }

  /** The same word but for the case of ASCII letters. */
  predicate Spells(token: string, word: string) {
    |token| == |word| && forall i :: 0 <= i < |token| ==> SmallCode(token[i]) == SmallCode(word[i])
  }

  /** The tokens from `at` on begin with the words and names given. */
  predicate Reads(tokens: seq<string>, at: nat, words: seq<string>) {
    at + |words| <= |tokens| && forall i :: 0 <= i < |words| ==> Spells(tokens[at + i], words[i])
  }

  /** The target stands at `at`; a name alone is not followed by a dot. */
  predicate Names(tokens: seq<string>, at: nat, target: Target) {
    match target
    case Alone(table) =>
      at < |tokens| && tokens[at] == table && (at + 1 < |tokens| ==> tokens[at + 1] != ".")
    case InSchema(schema, table) =>
      at + 2 < |tokens| && tokens[at] == schema && tokens[at + 1] == "." && tokens[at + 2] == table
  }

  function Width(target: Target): nat {
    if target.Alone? then 1 else 3
  }

  predicate Occurs(tokens: seq<string>, i: nat, st: Statement) {
    match st
    case DropTable(ifExists, target) =>
      Reads(tokens, i, ["DROP", "TABLE"])
      && if ifExists then Reads(tokens, i + 2, ["IF", "EXISTS"]) && Names(tokens, i + 4, target)
         else Names(tokens, i + 2, target)
    case DropColumn(target, dropped) =>
      && Reads(tokens, i, ["ALTER", "TABLE"]) && Names(tokens, i + 2, target)
      && Reads(tokens, i + 2 + Width(target), ["DROP", dropped]) && !Spells(dropped, "CONSTRAINT")
    case Rename(target) =>
      && Reads(tokens, i, ["ALTER", "TABLE"]) && Names(tokens, i + 2, target)
      && Reads(tokens, i + 2 + Width(target), ["RENAME"])
  }

  /** Quote characters, by code point: double and single quote, backtick and square brackets. */
  predicate AllQuotes(s: string) {
    forall i :: 0 <= i < |s| ==> s[i] as int in {0x22, 0x27, 0x60, 0x5B, 0x5D}
  }

  /** The text in small letters. */
  predicate InSmallLetters(text: string, small: string) {
    |text| == |small| && forall i :: 0 <= i < |text| ==> small[i] as int == SmallCode(text[i])
  }

  /** A token names a table: apart from quote characters around it and letter case. */
  ghost predicate NamesTable(token: string, table: string) {
    exists before, core, after ::
      token == before + core + after && AllQuotes(before) && AllQuotes(after) && InSmallLetters(core, table)
  }

  /** The statement is about a table of the persisted corpus. */
  ghost predicate OnProtected(st: Statement) {
    exists table :: table in PROTECTED && NamesTable(st.target.table, table)
  }

  /** The name of a table in SQL. */
  function SqlName(t: Migrations.Table): string {
    match t
    case ScanRuns => "scan_runs"
    case Frameworks => "frameworks"
    case Controls => "controls"
    case ControlResults => "control_results"
    case ComplianceGaps => "compliance_gaps"
    case EvidenceMetadata => "evidence_metadata"
    case RunEvidenceLinks => "run_evidence_links"
    case RunFrameworkLinks => "run_framework_links"
    case RunControlLinks => "run_control_links"
    case ScoreSummaries => "score_summaries"
    case Exports => "exports"
    case OtherTable(name) => name
  }

  const SCHEMA_TABLES: seq<Migrations.Table> := [
    Migrations.ScanRuns, Migrations.Frameworks, Migrations.Controls, Migrations.ControlResults,
    Migrations.ComplianceGaps, Migrations.EvidenceMetadata, Migrations.ScoreSummaries, Migrations.Exports,
    Migrations.RunEvidenceLinks, Migrations.RunFrameworkLinks, Migrations.RunControlLinks]

  lemma SchemaTablesAre(t: Migrations.Table)
    ensures t in MigrationPasses.NEW_SCHEMA <==> t in SCHEMA_TABLES
  {
  }

  lemma ProtectedAt(k: nat)
    requires k < |SCHEMA_TABLES|
    ensures |PROTECTED| == |SCHEMA_TABLES| && PROTECTED[k] == SqlName(SCHEMA_TABLES[k])
  {
  }

  /** The protected names are those of the tables that the migrations create in a new database. */
  lemma ProtectedAreSchemaTables()
    ensures forall name :: name in PROTECTED <==> exists t :: t in MigrationPasses.NEW_SCHEMA && SqlName(t) == name
  {
    hide PROTECTED, SCHEMA_TABLES, MigrationPasses.NEW_SCHEMA, SqlName;
    ElevenTables();
    ProtectedAt(0);
    forall name ensures name in PROTECTED <==> exists t :: t in MigrationPasses.NEW_SCHEMA && SqlName(t) == name {
      if name in PROTECTED {
        var k: nat :| k < |PROTECTED| && PROTECTED[k] == name;
        ProtectedAt(k);
        SchemaTablesAre(SCHEMA_TABLES[k]);
      }
      if t :| t in MigrationPasses.NEW_SCHEMA && SqlName(t) == name {
        SchemaTablesAre(t);
        var k: nat :| k < |SCHEMA_TABLES| && SCHEMA_TABLES[k] == t;
        ProtectedAt(k);
      }
    }
  }

  lemma ElevenTables()
    ensures |SCHEMA_TABLES| == 11
  {
  }

  // ----- names

  lemma {:induction false} TrimStartSplits(s: string) returns (before: string)
    ensures s == before + TrimStart(s) && AllQuotes(before)
    ensures |TrimStart(s)| > 0 ==> !IsQuoteChar(TrimStart(s)[0])
    decreases s
  {
    if |s| > 0 && IsQuoteChar(s[0]) {
      before := TrimStartSplits(s[1..]);
      before := [s[0]] + before;
      assert s == [s[0]] + s[1..];
    } else {
      before := "";
    }
  }

  lemma {:induction false} TrimEndSplits(s: string) returns (after: string)
    ensures s == TrimEnd(s) + after && AllQuotes(after)
  {
    if |s| > 0 && IsQuoteChar(s[|s| - 1]) {
      after := TrimEndSplits(s[..|s| - 1]);
      assert s == s[..|s| - 1] + [s[|s| - 1]];
      after := after + [s[|s| - 1]];
    } else {
      after := "";
    }
  }

  lemma {:induction false} TrimStartSkips(before: string, rest: string)
    requires AllQuotes(before) && |rest| > 0 && !IsQuoteChar(rest[0])
    ensures TrimStart(before + rest) == rest
    decreases before
  {
    if |before| == 0 {
      assert before + rest == rest;
    } else {
      assert (before + rest)[1..] == before[1..] + rest && (before + rest)[0] == before[0];
      TrimStartSkips(before[1..], rest);
    }
  }

  lemma {:induction false} TrimEndSkips(rest: string, after: string)
    requires AllQuotes(after) && |rest| > 0 && !IsQuoteChar(rest[|rest| - 1])
    ensures TrimEnd(rest + after) == rest
  {
    var s := rest + after;
    if |after| == 0 {
      assert s == rest;
    } else {
      assert s[..|s| - 1] == rest + after[..|after| - 1] && s[|s| - 1] == after[|after| - 1];
      TrimEndSkips(rest, after[..|after| - 1]);
    }
  }

  lemma LowerIsSmall(text: string, small: string)
    ensures Lower(text) == small <==> InSmallLetters(text, small)
  {
    if InSmallLetters(text, small) {
      forall i | 0 <= i < |text| ensures Lower(text)[i] == small[i] {}
    }
  }

  /** The runner compares words as they are spelt, but for the case of ASCII letters. */
  lemma WordIsSpelt(token: string, word: string)
    ensures IsWord(token, word) <==> Spells(token, word)
  {
    if Spells(token, word) {
      forall i | 0 <= i < |token| ensures Lower(token)[i] == Lower(word)[i] {}
    }
    if IsWord(token, word) {
      forall i | 0 <= i < |token| ensures SmallCode(token[i]) == SmallCode(word[i]) {
        assert Lower(token)[i] == Lower(word)[i];
      }
    }
  }

  predicate PlainEnds(table: string) {
    |table| > 0 && 'a' <= table[0] <= 'z' && 'a' <= table[|table| - 1] <= 'z'
  }

  lemma ProtectedHavePlainEnds()
    ensures forall table :: table in PROTECTED ==> PlainEnds(table)
  {
    forall k | 0 <= k < |PROTECTED| ensures PlainEnds(PROTECTED[k]) {
      ProtectedHasPlainEnds(k);
    }
  }

  lemma ProtectedHasPlainEnds(k: nat)
    requires k < |PROTECTED|
    ensures PlainEnds(PROTECTED[k])
  {
  }

  /** The canonical name of a token is a given table exactly when the token names it. */
  lemma CanonicalNames(token: string, table: string)
    requires PlainEnds(table)
    ensures Canonical(token) == table <==> NamesTable(token, table)
  {
    if Canonical(token) == table {
      var before := TrimStartSplits(token);
      var after := TrimEndSplits(TrimStart(token));
      var core := TrimEnd(TrimStart(token));
      assert token == before + core + after;
      LowerIsSmall(core, table);
    }
    if NamesTable(token, table) {
      var before, core, after :|
        token == before + core + after && AllQuotes(before) && AllQuotes(after) && InSmallLetters(core, table);
      LowerIsSmall(core, table);
      assert LowerChar(core[0]) == table[0] && LowerChar(core[|core| - 1]) == table[|table| - 1];
      assert token == before + (core + after);
      TrimStartSkips(before, core + after);
      TrimEndSkips(core, after);
    }
  }

  ghost predicate ProtectedToken(token: string) {
    exists table :: table in PROTECTED && NamesTable(token, table)
  }

  lemma CanonicalProtected(token: string)
    ensures Canonical(token) in PROTECTED <==> ProtectedToken(token)
  {
    hide Canonical, NamesTable, PlainEnds, PROTECTED;
    ProtectedHavePlainEnds();
    if Canonical(token) in PROTECTED { CanonicalNames(token, Canonical(token)); }
    if ProtectedToken(token) {
      var table :| table in PROTECTED && NamesTable(token, table);
      CanonicalNames(token, table);
    }
  }

  // ----- statements

  function Description(st: Statement): string {
    match st
    case DropTable(_, target) => "DROP TABLE " + Canonical(target.table)
    case DropColumn(target, _) => "ALTER TABLE " + Canonical(target.table) + " DROP COLUMN"
    case Rename(target) => "ALTER TABLE " + Canonical(target.table) + " RENAME"
  }

  lemma KeywordsDiffer(token: string)
    ensures !(IsWord(token, "DROP") && IsWord(token, "ALTER")) && !(IsWord(token, "DROP") && IsWord(token, "RENAME"))
    ensures !IsWord(".", "EXISTS")
  {
    assert Lower("DROP")[0] == 'd' && Lower("ALTER")[0] == 'a' && Lower("RENAME")[0] == 'r';
    assert |Lower(".")| == 1 && |Lower("EXISTS")| == 6;
  }

  /** `IF` names no protected table. */
  lemma IfIsNotProtected(token: string)
    requires IsWord(token, "IF")
    ensures Canonical(token) !in PROTECTED
  {
    var low := Lower(token);
    assert |token| == 2 && low[0] == Lower("IF")[0] == 'i' && low[1] == Lower("IF")[1] == 'f';
    assert LowerChar(token[0]) == 'i' && LowerChar(token[1]) == 'f';
    assert TrimStart(token) == token && TrimEnd(token) == token;
    assert |Canonical(token)| == 2;
    forall k | 0 <= k < |PROTECTED| ensures |PROTECTED[k]| > 2 { ProtectedIsLong(k); }
  }

  lemma ProtectedIsLong(k: nat)
    requires k < |PROTECTED|
    ensures |PROTECTED[k]| > 2
  {
  }

  function TargetAt(tokens: seq<string>, at: nat): Target
    requires TableName(tokens, at).Some?
  {
    if at + 1 < |tokens| && tokens[at + 1] == "." then InSchema(tokens[at], tokens[at + 2]) else Alone(tokens[at])
  }

  /** The runner's reading of a table name is the one target that stands there. */
  lemma TargetIs(tokens: seq<string>, at: nat, target: Target)
    ensures Names(tokens, at, target) <==> TableName(tokens, at).Some? && target == TargetAt(tokens, at)
    ensures Names(tokens, at, target) ==> TableName(tokens, at) == Some((Canonical(target.table), at + Width(target)))
  {
    hide Canonical;
  }

  lemma ReadsTwo(tokens: seq<string>, at: nat, a: string, b: string)
    ensures Reads(tokens, at, [a, b]) <==> WordAt(tokens, at, a) && WordAt(tokens, at + 1, b)
  {
    hide IsWord, Spells;
    if at < |tokens| { WordIsSpelt(tokens[at], a); }
    if at + 1 < |tokens| { WordIsSpelt(tokens[at + 1], b); }
    if Reads(tokens, at, [a, b]) { assert Spells(tokens[at + 0], [a, b][0]) && Spells(tokens[at + 1], [a, b][1]); }
  }

  lemma ReadsOne(tokens: seq<string>, at: nat, a: string)
    ensures Reads(tokens, at, [a]) <==> WordAt(tokens, at, a)
  {
    hide IsWord, Spells;
    if at < |tokens| { WordIsSpelt(tokens[at], a); }
    if Reads(tokens, at, [a]) { assert Spells(tokens[at + 0], [a][0]); }
  }

  lemma OnProtectedIs(st: Statement)
    ensures OnProtected(st) <==> Canonical(st.target.table) in PROTECTED
  {
    hide Canonical, NamesTable, PROTECTED;
    CanonicalProtected(st.target.table);
  }

  lemma StatementIsFound(tokens: seq<string>, i: nat, st: Statement)
    requires Occurs(tokens, i, st) && OnProtected(st)
    ensures i + 2 < |tokens| && OperationAt(tokens, i) == Some(Description(st))
  {
    hide Canonical, NamesTable, OnProtected, PROTECTED, IsWord, Spells, Reads, Names, TableName;
    OnProtectedIs(st);
    NamesInside(tokens, i + 2, st.target);
    NamesInside(tokens, i + 4, st.target);
    KeywordsDiffer(tokens[i]);
    match st
    case DropTable(ifExists, target) =>
      ReadsTwo(tokens, i, "DROP", "TABLE");
      ReadsTwo(tokens, i + 2, "IF", "EXISTS");
      TargetIs(tokens, if ifExists then i + 4 else i + 2, target);
      if !ifExists && WordAt(tokens, i + 2, "IF") && WordAt(tokens, i + 3, "EXISTS") {
        NotIfExists(tokens, i + 2, target);
      }
    case DropColumn(target, dropped) =>
      var next := i + 2 + Width(target);
      ReadsTwo(tokens, i, "ALTER", "TABLE");
      ReadsTwo(tokens, next, "DROP", dropped);
      TargetIs(tokens, i + 2, target);
      SameConstraint(tokens[next + 1], dropped);
      WordIsSpelt(dropped, "CONSTRAINT");
    case Rename(target) =>
      var next := i + 2 + Width(target);
      ReadsTwo(tokens, i, "ALTER", "TABLE");
      ReadsOne(tokens, next, "RENAME");
      TargetIs(tokens, i + 2, target);
      KeywordsDiffer(tokens[next]);
  }

  lemma NamesInside(tokens: seq<string>, at: nat, target: Target)
    ensures Names(tokens, at, target) ==> at < |tokens|
  {
  }

  lemma SameConstraint(token: string, dropped: string)
    requires IsWord(token, dropped)
    ensures IsWord(token, "CONSTRAINT") == IsWord(dropped, "CONSTRAINT")
  {
  }

  lemma NotIfExists(tokens: seq<string>, at: nat, target: Target)
    requires Names(tokens, at, target) && Canonical(target.table) in PROTECTED
    ensures !(WordAt(tokens, at, "IF") && WordAt(tokens, at + 1, "EXISTS"))
  {
    hide Canonical, PROTECTED, IsWord;
    if WordAt(tokens, at, "IF") { IfIsNotProtected(tokens[at]); }
    KeywordsDiffer("");
  }

  lemma FoundIsStatement(tokens: seq<string>, i: nat) returns (st: Statement)
    requires i + 2 < |tokens| && OperationAt(tokens, i).Some?
    ensures Occurs(tokens, i, st) && OnProtected(st)
  {
    hide Canonical, NamesTable, OnProtected, PROTECTED, IsWord, Spells, Reads, Names, TableName;
    if WordAt(tokens, i, "DROP") && WordAt(tokens, i + 1, "TABLE") {
      var ifExists := WordAt(tokens, i + 2, "IF") && WordAt(tokens, i + 3, "EXISTS");
      var at := if ifExists then i + 4 else i + 2;
      st := DropTable(ifExists, TargetAt(tokens, at));
      TargetIs(tokens, at, st.target);
      ReadsTwo(tokens, i, "DROP", "TABLE");
      ReadsTwo(tokens, i + 2, "IF", "EXISTS");
    } else {
      var target := TargetAt(tokens, i + 2);
      var next := i + 2 + Width(target);
      TargetIs(tokens, i + 2, target);
      ReadsTwo(tokens, i, "ALTER", "TABLE");
      if WordAt(tokens, next, "DROP") && next + 1 < |tokens| && !WordAt(tokens, next + 1, "CONSTRAINT") {
        st := DropColumn(target, tokens[next + 1]);
        ReadsTwo(tokens, next, "DROP", tokens[next + 1]);
        SameWord(tokens[next + 1]);
        WordIsSpelt(tokens[next + 1], "CONSTRAINT");
      } else {
        st := Rename(target);
        ReadsOne(tokens, next, "RENAME");
      }
    }
    OnProtectedIs(st);
  }

  lemma SameWord(token: string)
    ensures IsWord(token, token)
  {
  }

  /** A text is refused exactly when its tokens contain a destructive statement on a protected table. */
  ghost predicate Destroys(tokens: seq<string>, i: nat) {
    exists st :: Occurs(tokens, i, st) && OnProtected(st)
  }

  lemma OperationIffDestroys(tokens: seq<string>, i: nat)
    ensures Destroys(tokens, i) <==> i + 2 < |tokens| && OperationAt(tokens, i).Some?
  {
    hide OperationAt, Occurs, OnProtected;
    if Destroys(tokens, i) {
      var st :| Occurs(tokens, i, st) && OnProtected(st);
      StatementIsFound(tokens, i, st);
    }
    if i + 2 < |tokens| && OperationAt(tokens, i).Some? {
      var st := FoundIsStatement(tokens, i);
    }
  }

  /** The first destructive statement on a protected table, described; `None` when there is none. */
  method DestructiveMigrationOperation(sql: string) returns (r: Option<string>)
    ensures r == None <==> forall i: nat :: !Destroys(Tokens(sql), i)
    ensures r.Some? ==> exists i: nat, st ::
              && Occurs(Tokens(sql), i, st) && OnProtected(st) && r == Some(Description(st))
              && forall j: nat :: j < i ==> !Destroys(Tokens(sql), j)
  {
    hide OperationAt, Tokens, Occurs, OnProtected, Destroys, Description;
    var tokens := TokenizeSql(sql);
    var index := 0;
    while index + 2 < |tokens|
      invariant forall j: nat :: j < index ==> !Destroys(tokens, j)
    {
      OperationIffDestroys(tokens, index);
      r := OperationAt(tokens, index);
      if r.Some? {
        ghost var st := FoundIsStatement(tokens, index);
        StatementIsFound(tokens, index, st);
        return;
      }
      index := index + 1;
    }
    forall j: nat ensures !Destroys(tokens, j) {
      OperationIffDestroys(tokens, j);
    }
    return None;
  }

  /** Comments, spacing and quoting style neither hide nor fake a destructive statement. */
  lemma SpellingHidesNothing(pieces: seq<Piece>, tail: Tail, i: nat)
    requires Proper(pieces, tail)
    ensures Destroys(Tokens(Text(pieces, tail)), i) <==> Destroys(Meaning(pieces, tail), i)
  {
    TokensAreMeaning(pieces, tail);
  }
}
