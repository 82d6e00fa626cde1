/** The tokeniser of migration texts and the search for destructive statements (src/local_db.rs). */
module SqlTokens {
  import opened Wrappers

  predicate IsTokenChar(c: char) {
    'a' <= c <= 'z' || 'A' <= c <= 'Z' || '0' <= c <= '9' || c == '_'
  }

  // ----- the parts of a text, as functions of what is left of it

  function AfterLine(s: string): (rest: string)
    ensures |rest| <= |s|
  {
    if |s| == 0 then "" else if s[0] == '\n' then s[1..] else AfterLine(s[1..])
  }

  function AfterBlock(s: string): (rest: string)
    ensures |rest| <= |s|
  {
    if |s| == 0 then "" else if |s| > 1 && s[0] == '*' && s[1] == '/' then s[2..] else AfterBlock(s[1..])
  }

  predicate Doubles(terminator: char) {
    terminator == '\'' || terminator == '"' || terminator == '`'
  }

  /** The identifier up to its terminator, and what follows; a doubled quote stands for one. */
  function Identifier(s: string, terminator: char): (r: (string, string))
    ensures |r.1| <= |s|
  {
    if |s| == 0 then ("", "")
    else if s[0] == terminator then
      if Doubles(terminator) && |s| > 1 && s[1] == terminator then
        var (identifier, rest) := Identifier(s[2..], terminator);
        ([terminator] + identifier, rest)
      else ("", s[1..])
    else
      var (identifier, rest) := Identifier(s[1..], terminator);
      ([s[0]] + identifier, rest)
  }

  function Flushed(token: string): seq<string> {
    if token == "" then [] else [token]
  }

  /** The tokens of what is left of a text when `token` has been read so far. */
  function Lexed(s: string, token: string): seq<string>
    decreases |s|
  {
    if |s| == 0 then Flushed(token)
    else if |s| > 1 && s[0] == '-' && s[1] == '-' then Flushed(token) + Lexed(AfterLine(s[2..]), "")
    else if |s| > 1 && s[0] == '/' && s[1] == '*' then Flushed(token) + Lexed(AfterBlock(s[2..]), "")
    else if s[0] == '\'' then
      var (text, rest) := Identifier(s[1..], '\'');
      Flushed(token) + ["'" + text + "'"] + Lexed(rest, "")
    else if s[0] == '"' || s[0] == '`' || s[0] == '[' then
      var (text, rest) := Identifier(s[1..], if s[0] == '[' then ']' else s[0]);
      Flushed(token) + [text] + Lexed(rest, "")
    else if s[0] == '.' then Flushed(token) + ["."] + Lexed(s[1..], "")
    else if IsTokenChar(s[0]) then Lexed(s[1..], token + [s[0]])
    else Flushed(token) + Lexed(s[1..], "")
  }

  function Tokens(sql: string): seq<string> {
    Lexed(sql, "")
  }

  // ----- the loops

  method SkipLineComment(sql: string, start: nat) returns (i: nat)
    requires start <= |sql|
    ensures start <= i <= |sql| && sql[i..] == AfterLine(sql[start..])
  {
    i := start;
    while i < |sql|
      invariant start <= i <= |sql|
      invariant AfterLine(sql[i..]) == AfterLine(sql[start..])
    {
      assert sql[i..][1..] == sql[i + 1..];
      var c := sql[i];
      i := i + 1;
      if c == '\n' {
        return;
      }
    }
  }

  method SkipBlockComment(sql: string, start: nat) returns (i: nat)
    requires start <= |sql|
    ensures start <= i <= |sql| && sql[i..] == AfterBlock(sql[start..])
  {
    i := start;
    while i < |sql|
      invariant start <= i <= |sql|
      invariant AfterBlock(sql[i..]) == AfterBlock(sql[start..])
    {
      assert sql[i..][1..] == sql[i + 1..];
      var c := sql[i];
      if c == '*' && i + 1 < |sql| && sql[i + 1] == '/' {
        assert sql[i..][2..] == sql[i + 2..];
        return i + 2;
      }
      i := i + 1;
    }
  }

  method CollectQuotedIdentifier(sql: string, start: nat, terminator: char) returns (identifier: string, i: nat)
    requires start <= |sql|
    ensures start <= i <= |sql| && (identifier, sql[i..]) == Identifier(sql[start..], terminator)
  {
    identifier, i := "", start;
    assert "" + Identifier(sql[start..], terminator).0 == Identifier(sql[start..], terminator).0;
    while i < |sql|
      invariant start <= i <= |sql|
      invariant var (more, rest) := Identifier(sql[i..], terminator);
                Identifier(sql[start..], terminator) == (identifier + more, rest)
    {
      assert sql[i..][1..] == sql[i + 1..];
      var c := sql[i];
      if c == terminator {
        if Doubles(terminator) && i + 1 < |sql| && sql[i + 1] == terminator {
          assert sql[i..][2..] == sql[i + 2..];
          var more := Identifier(sql[i + 2..], terminator).0;
          assert identifier + ([terminator] + more) == identifier + [terminator] + more;
          i := i + 2;
          identifier := identifier + [terminator];
        } else {
          assert identifier + "" == identifier;
          return identifier, i + 1;
        }
      } else {
        var more := Identifier(sql[i + 1..], terminator).0;
        assert identifier + ([c] + more) == identifier + [c] + more;
        i := i + 1;
        identifier := identifier + [c];
      }
    }
    assert identifier + "" == identifier;
  }

  method TokenizeSql(sql: string) returns (tokens: seq<string>)
    ensures tokens == Tokens(sql)
  {
    hide Lexed, AfterLine, AfterBlock, Identifier, Flushed;
    tokens := [];
    var token, i := "", 0;
    assert sql[0..] == sql && [] + Lexed(sql, "") == Lexed(sql, "");
    while i < |sql|
      invariant 0 <= i <= |sql|
      invariant tokens + Lexed(sql[i..], token) == Tokens(sql)
    {
      LexedStep(sql, i, tokens, token);
      var c := sql[i];
      if c == '-' && i + 1 < |sql| && sql[i + 1] == '-' {
        tokens, token := tokens + Flushed(token), "";
        i := SkipLineComment(sql, i + 2);
      } else if c == '/' && i + 1 < |sql| && sql[i + 1] == '*' {
        tokens, token := tokens + Flushed(token), "";
        i := SkipBlockComment(sql, i + 2);
      } else if c == '\'' {
        tokens, token := tokens + Flushed(token), "";
        var text;
        text, i := CollectQuotedIdentifier(sql, i + 1, '\'');
        tokens := tokens + ["'" + text + "'"];
      } else if c == '"' || c == '`' || c == '[' {
        tokens, token := tokens + Flushed(token), "";
        var text;
        text, i := CollectQuotedIdentifier(sql, i + 1, if c == '[' then ']' else c);
        tokens := tokens + [text];
      } else if c == '.' {
        tokens, token := tokens + Flushed(token), "";
        tokens := tokens + ["."];
        i := i + 1;
      } else if IsTokenChar(c) {
        token := token + [c];
        i := i + 1;
      } else {
        tokens, token := tokens + Flushed(token), "";
        i := i + 1;
      }
    }
    NothingLeft(sql[i..], token);
    tokens := tokens + Flushed(token);
  }

  lemma NothingLeft(s: string, token: string)
    requires s == ""
    ensures Lexed(s, token) == Flushed(token)
  {
  }

  /** One turn of the loop: what it appends to the tokens, and where it goes on. */
  ghost function AfterTurn(sql: string, i: nat, tokens: seq<string>, token: string): seq<string>
    requires i < |sql|
  {
    var c, flushed := sql[i], tokens + Flushed(token);
    if c == '-' && i + 1 < |sql| && sql[i + 1] == '-' then flushed + Lexed(AfterLine(sql[i + 2..]), "")
    else if c == '/' && i + 1 < |sql| && sql[i + 1] == '*' then flushed + Lexed(AfterBlock(sql[i + 2..]), "")
    else if c == '\'' then
      var (text, rest) := Identifier(sql[i + 1..], '\'');
      flushed + ["'" + text + "'"] + Lexed(rest, "")
    else if c == '"' || c == '`' || c == '[' then
      var (text, rest) := Identifier(sql[i + 1..], if c == '[' then ']' else c);
      flushed + [text] + Lexed(rest, "")
    else if c == '.' then flushed + ["."] + Lexed(sql[i + 1..], "")
    else if IsTokenChar(c) then tokens + Lexed(sql[i + 1..], token + [c])
    else flushed + Lexed(sql[i + 1..], "")
  }

  lemma LexedStep(sql: string, i: nat, tokens: seq<string>, token: string)
    requires i < |sql|
    ensures tokens + Lexed(sql[i..], token) == AfterTurn(sql, i, tokens, token)
  {
    hide AfterLine, AfterBlock, Identifier, Flushed;
    TextLeft(sql, i);
  }

  lemma TextLeft(sql: string, i: nat)
    requires i < |sql|
    ensures sql[i..][0] == sql[i] && sql[i..][1..] == sql[i + 1..]
    ensures i + 1 < |sql| ==> sql[i..][1] == sql[i + 1] && sql[i..][2..] == sql[i + 2..]
  {
  }

  // ----- names

  function LowerChar(c: char): char {
    if 'A' <= c <= 'Z' then (c as int + 32) as char else c
  }

  function Lower(s: string): (r: string)
    ensures |r| == |s| && forall i :: 0 <= i < |s| ==> r[i] == LowerChar(s[i])
  {
    seq(|s|, i requires 0 <= i < |s| => LowerChar(s[i]))
  }

  predicate IsWord(token: string, word: string) {
    Lower(token) == Lower(word)
  }

  predicate IsQuoteChar(c: char) {
    c == '"' || c == '\'' || c == '`' || c == '[' || c == ']'
  }

  function TrimStart(s: string): string {
    if |s| > 0 && IsQuoteChar(s[0]) then TrimStart(s[1..]) else s
  }

  function TrimEnd(s: string): string {
    if |s| > 0 && IsQuoteChar(s[|s| - 1]) then TrimEnd(s[..|s| - 1]) else s
  }

  function Canonical(identifier: string): string {
    Lower(TrimEnd(TrimStart(identifier)))
  }

  const PROTECTED: seq<string> := [
    "scan_runs", "frameworks", "controls", "control_results", "compliance_gaps", "evidence_metadata",
    "score_summaries", "exports", "run_evidence_links", "run_framework_links", "run_control_links"]

  // ----- destructive statements

  /** The table named at a position, with an optional schema before it, and where the name ends. */
  function TableName(tokens: seq<string>, at: nat): Option<(string, nat)> {
    if at >= |tokens| then None
    else if at + 1 < |tokens| && tokens[at + 1] == "." then
      if at + 2 < |tokens| then Some((Canonical(tokens[at + 2]), at + 3)) else None
    else Some((Canonical(tokens[at]), at + 1))
  }

  predicate WordAt(tokens: seq<string>, i: nat, word: string) {
    i < |tokens| && IsWord(tokens[i], word)
  }

  function OperationAt(tokens: seq<string>, i: nat): Option<string>
    requires i + 2 < |tokens|
  {
    if WordAt(tokens, i, "DROP") && WordAt(tokens, i + 1, "TABLE") then
      var at := if WordAt(tokens, i + 2, "IF") && WordAt(tokens, i + 3, "EXISTS") then i + 4 else i + 2;
      match TableName(tokens, at)
      case None => None
      case Some((name, _)) => if name in PROTECTED then Some("DROP TABLE " + name) else None
    else if WordAt(tokens, i, "ALTER") && WordAt(tokens, i + 1, "TABLE") then
      match TableName(tokens, i + 2)
      case None => None
      case Some((name, next)) =>
        if name !in PROTECTED then None
        else if WordAt(tokens, next, "DROP") && next + 1 < |tokens| && !WordAt(tokens, next + 1, "CONSTRAINT")
        then Some("ALTER TABLE " + name + " DROP COLUMN")
        else if WordAt(tokens, next, "RENAME") then Some("ALTER TABLE " + name + " RENAME")
        else None
    else None
  }
}
