/** SQL texts as renderings of token lists: every text is one, and the tokeniser returns its tokens. */
module SqlRenderings {
  import opened Wrappers
  import opened Texts
  import opened SqlTokens

  datatype Style = DoubleQuotes | Backticks | Brackets

  /** A stretch of text: a token in one of its spellings, or something between tokens. */
  datatype Piece =
    | Word(text: string)
    | Name(text: string, style: Style)
    | Literal(text: string)
    | Dot
    | Separator(c: char)
    | LineComment(text: string)
    | BlockComment(text: string)

  /** How a text ends: after a piece, or inside a quote or comment that nothing closes. */
  datatype Tail =
    | End
    | OpenName(text: string, style: Style)
    | OpenLiteral(text: string)
    | OpenLine(text: string)
    | OpenBlock(text: string)

  function Opening(style: Style): char {
    match style case DoubleQuotes => '"' case Backticks => '`' case Brackets => '['
  }

  function Closing(style: Style): char {
    match style case DoubleQuotes => '"' case Backticks => '`' case Brackets => ']'
  }

  /** The text of a quoted token with each of its quotes doubled. */
  function Doubled(text: string, quote: char): string {
    if |text| == 0 then ""
    else (if text[0] == quote then [quote, quote] else [text[0]]) + Doubled(text[1..], quote)
  }

  function PieceText(p: Piece): string {
    match p
    case Word(text) => text
    case Name(text, style) => [Opening(style)] + (Doubled(text, Closing(style)) + [Closing(style)])
    case Literal(text) => "'" + (Doubled(text, '\'') + "'")
    case Dot => "."
    case Separator(c) => [c]
    case LineComment(text) => "--" + (text + "\n")
    case BlockComment(text) => "/*" + (text + "*/")
  }

  function TailText(t: Tail): string {
    match t
    case End => ""
    case OpenName(text, style) => [Opening(style)] + Doubled(text, Closing(style))
    case OpenLiteral(text) => "'" + Doubled(text, '\'')
    case OpenLine(text) => "--" + text
    case OpenBlock(text) => "/*" + text
  }

  function Text(pieces: seq<Piece>, tail: Tail): string {
    if |pieces| == 0 then TailText(tail) else PieceText(pieces[0]) + Text(pieces[1..], tail)
  }

  function PieceTokens(p: Piece): seq<string> {
    match p
    case Word(text) => [text]
    case Name(text, _) => [text]
    case Literal(text) => ["'" + text + "'"]
    case Dot => ["."]
    case _ => []
  }

  function TailTokens(t: Tail): seq<string> {
    match t
    case OpenName(text, _) => [text]
    case OpenLiteral(text) => ["'" + text + "'"]
    case _ => []
  }

  /** The tokens a rendering stands for. */
  function Meaning(pieces: seq<Piece>, tail: Tail): seq<string> {
    if |pieces| == 0 then TailTokens(tail) else PieceTokens(pieces[0]) + Meaning(pieces[1..], tail)
  }

  // ----- which renderings are proper

  predicate ClosesBlock(s: string) {
    exists i :: 0 <= i < |s| - 1 && s[i] == '*' && s[i + 1] == '/'
  }

  /** The characters of an unquoted word, by code point: the ASCII digits and letters, and the underscore. */
  predicate IsNameChar(c: char) {
    var n := c as int;
    0x30 <= n <= 0x39 || 0x41 <= n <= 0x5A || 0x61 <= n <= 0x7A || n == 0x5F
  }

  predicate IsSeparator(c: char) {
    !IsNameChar(c) && c != '\'' && c != '"' && c != '`' && c != '[' && c != '.'
  }

  predicate ProperPiece(p: Piece) {
    match p
    case Word(text) => |text| > 0 && forall i :: 0 <= i < |text| ==> IsNameChar(text[i])
    case Name(text, style) => style == Brackets ==> ']' !in text
    case Separator(c) => IsSeparator(c)
    case LineComment(text) => '\n' !in text
    case BlockComment(text) => !ClosesBlock(text)
    case _ => true
  }

  predicate ProperTail(t: Tail) {
    match t
    case OpenName(text, style) => style == Brackets ==> ']' !in text
    case OpenLine(text) => '\n' !in text
    case OpenBlock(text) => !ClosesBlock(text)
    case _ => true
  }

  predicate StartsWith(s: string, c: char) {
    |s| > 0 && s[0] == c
  }

  /** What may not follow a piece, because it would read as part of it. */
  predicate Fits(p: Piece, rest: string) {
    match p
    case Word(_) => |rest| == 0 || !IsNameChar(rest[0])
    case Name(_, style) => style != Brackets ==> !StartsWith(rest, Closing(style))
    case Literal(_) => !StartsWith(rest, '\'')
    case Separator(c) => (c == '-' ==> !StartsWith(rest, '-')) && (c == '/' ==> !StartsWith(rest, '*'))
    case _ => true
  }

  predicate Proper(pieces: seq<Piece>, tail: Tail) {
    if |pieces| == 0 then ProperTail(tail)
    else ProperPiece(pieces[0]) && Fits(pieces[0], Text(pieces[1..], tail)) && Proper(pieces[1..], tail)
  }

  // ----- the tokeniser reads renderings

  lemma {:induction false} IdentifierOf(text: string, terminator: char, rest: string)
    requires terminator == ']' ==> ']' !in text
    requires terminator == ']' || Doubles(terminator)
    requires Doubles(terminator) ==> !StartsWith(rest, terminator)
    ensures Identifier(Doubled(text, terminator) + ([terminator] + rest), terminator) == (text, rest)
    decreases text
  {
    var s := Doubled(text, terminator) + ([terminator] + rest);
    if |text| == 0 {
      assert s == [terminator] + rest && s[1..] == rest;
    } else {
      IdentifierOf(text[1..], terminator, rest);
      assert text == [text[0]] + text[1..];
      var first := if text[0] == terminator then [terminator, terminator] else [text[0]];
      var more := Doubled(text[1..], terminator) + ([terminator] + rest);
      Assoc(first, Doubled(text[1..], terminator), [terminator] + rest);
      assert s == first + more && s[|first|..] == more;
    }
  }

  lemma {:induction false} OpenIdentifierOf(text: string, terminator: char)
    requires terminator == ']' ==> ']' !in text
    requires terminator == ']' || Doubles(terminator)
    ensures Identifier(Doubled(text, terminator), terminator) == (text, "")
    decreases text
  {
    var s := Doubled(text, terminator);
    if |text| > 0 {
      OpenIdentifierOf(text[1..], terminator);
      assert text == [text[0]] + text[1..];
      var more := Doubled(text[1..], terminator);
      if text[0] == terminator {
        assert s == [terminator, terminator] + more && s[2..] == more;
      } else {
        assert s == [text[0]] + more && s[1..] == more;
      }
    }
  }

  lemma {:induction false} LineEnds(text: string, rest: string)
    requires '\n' !in text
    ensures AfterLine(text + ("\n" + rest)) == rest && AfterLine(text) == ""
    decreases text
  {
    var s := text + ("\n" + rest);
    if |text| == 0 {
      assert s == "\n" + rest && s[1..] == rest;
    } else {
      LineEnds(text[1..], rest);
      assert s[1..] == text[1..] + ("\n" + rest) && s[0] == text[0] && text[0] in text;
    }
  }

  lemma StillOpen(text: string)
    requires |text| > 0 && !ClosesBlock(text)
    ensures !ClosesBlock(text[1..])
  {
    var rest := text[1..];
    forall i | 0 <= i < |rest| - 1 ensures !(rest[i] == '*' && rest[i + 1] == '/') {
      assert rest[i] == text[i + 1] && rest[i + 1] == text[i + 2];
    }
  }

  lemma {:induction false} BlockEnds(text: string, rest: string)
    requires !ClosesBlock(text)
    ensures AfterBlock(text + ("*/" + rest)) == rest && AfterBlock(text) == ""
    decreases text
  {
    var s := text + ("*/" + rest);
    if |text| == 0 {
      assert s == "*/" + rest && s[2..] == rest;
    } else {
      StillOpen(text);
      BlockEnds(text[1..], rest);
      assert s[1..] == text[1..] + ("*/" + rest) && s[0] == text[0];
      if |text| > 1 {
        assert s[1] == text[1] && !(text[0] == '*' && text[1] == '/');
      } else {
        assert s[1] == '*';
      }
    }
  }

  lemma {:induction false} WordIsRead(word: string, rest: string, token: string)
    requires forall i :: 0 <= i < |word| ==> IsTokenChar(word[i])
    ensures Lexed(word + rest, token) == Lexed(rest, token + word)
    decreases word
  {
    if |word| == 0 {
      assert word + rest == rest && token + word == token;
    } else {
      assert (word + rest)[0] == word[0] && (word + rest)[1..] == word[1..] + rest;
      assert IsTokenChar(word[0]);
      WordIsRead(word[1..], rest, token + [word[0]]);
      assert token + [word[0]] + word[1..] == token + word;
    }
  }

  /** A token ends where no token character follows. */
  lemma TokenEnds(rest: string, token: string)
    requires |rest| == 0 || !IsTokenChar(rest[0])
    ensures Lexed(rest, token) == Flushed(token) + Lexed(rest, "")
  {
    hide Lexed, AfterLine, AfterBlock, Identifier;
    assert Flushed("") == [];
    if |rest| == 0 {
      NothingLeft(rest, token);
      NothingLeft(rest, "");
    } else {
      assert rest[0..] == rest;
      assert [] + Lexed(rest, token) == Lexed(rest, token) && [] + Lexed(rest, "") == Lexed(rest, "");
      LexedStep(rest, 0, [], token);
      LexedStep(rest, 0, [], "");
      TurnFlushes(rest, token);
    }
  }

  lemma TurnFlushes(rest: string, token: string)
    requires |rest| > 0 && !IsTokenChar(rest[0])
    ensures AfterTurn(rest, 0, [], token) == Flushed(token) + AfterTurn(rest, 0, [], "")
  {
    hide Lexed, AfterLine, AfterBlock, Identifier;
  }

  lemma PieceIsRead(p: Piece, rest: string)
    requires ProperPiece(p) && Fits(p, rest)
    ensures Lexed(PieceText(p) + rest, "") == PieceTokens(p) + Lexed(rest, "")
  {
    hide AfterLine, AfterBlock, Identifier, Lexed;
    match p
    case Word(text) =>
      WordIsRead(text, rest, "");
      assert "" + text == text;
      TokenEnds(rest, text);
    case Name(text, style) => NameIsRead(text, style, rest);
    case Literal(text) => LiteralIsRead(text, rest);
    case Dot => DotIsRead(rest);
    case Separator(c) => SeparatorIsRead(c, rest);
    case LineComment(text) => LineCommentIsRead(text, rest);
    case BlockComment(text) => BlockCommentIsRead(text, rest);
  }

  lemma NameIsRead(text: string, style: Style, rest: string)
    requires ProperPiece(Name(text, style)) && Fits(Name(text, style), rest)
    ensures Lexed(PieceText(Name(text, style)) + rest, "") == [text] + Lexed(rest, "")
  {
    hide Identifier, AfterLine, AfterBlock;
    var q := Closing(style);
    var s := PieceText(Name(text, style)) + rest;
    assert s[0] == Opening(style) && s[1..] == Doubled(text, q) + ([q] + rest);
    IdentifierOf(text, q, rest);
  }

  lemma LiteralIsRead(text: string, rest: string)
    requires Fits(Literal(text), rest)
    ensures Lexed(PieceText(Literal(text)) + rest, "") == ["'" + text + "'"] + Lexed(rest, "")
  {
    hide Identifier, AfterLine, AfterBlock;
    var s := PieceText(Literal(text)) + rest;
    assert s[0] == '\'' && s[1..] == Doubled(text, '\'') + (['\''] + rest);
    IdentifierOf(text, '\'', rest);
  }

  lemma DotIsRead(rest: string)
    ensures Lexed("." + rest, "") == ["."] + Lexed(rest, "")
  {
    hide Identifier, AfterLine, AfterBlock;
    var s := "." + rest;
    assert s[0] == '.' && s[1..] == rest;
  }

  lemma SeparatorIsRead(c: char, rest: string)
    requires IsSeparator(c) && Fits(Separator(c), rest)
    ensures Lexed([c] + rest, "") == Lexed(rest, "")
  {
    hide Identifier, AfterLine, AfterBlock;
    var s := [c] + rest;
    assert s[0] == c && s[1..] == rest;
    assert |s| > 1 ==> s[1] == rest[0];
  }

  lemma LineCommentIsRead(text: string, rest: string)
    requires '\n' !in text
    ensures Lexed(PieceText(LineComment(text)) + rest, "") == Lexed(rest, "")
  {
    hide Identifier, AfterLine, AfterBlock;
    var s := PieceText(LineComment(text)) + rest;
    assert s[0] == '-' && s[1] == '-' && s[2..] == text + ("\n" + rest);
    LineEnds(text, rest);
  }

  lemma BlockCommentIsRead(text: string, rest: string)
    requires !ClosesBlock(text)
    ensures Lexed(PieceText(BlockComment(text)) + rest, "") == Lexed(rest, "")
  {
    hide Identifier, AfterLine, AfterBlock;
    var s := PieceText(BlockComment(text)) + rest;
    assert s[0] == '/' && s[1] == '*' && s[2..] == text + ("*/" + rest);
    BlockEnds(text, rest);
  }

  lemma TailIsRead(t: Tail)
    requires ProperTail(t)
    ensures Lexed(TailText(t), "") == TailTokens(t)
  {
    hide Identifier, AfterLine, AfterBlock;
    var s := TailText(t);
    match t
    case End =>
    case OpenName(text, style) =>
      assert s[0] == Opening(style) && s[1..] == Doubled(text, Closing(style));
      OpenIdentifierOf(text, Closing(style));
    case OpenLiteral(text) =>
      assert s[0] == '\'' && s[1..] == Doubled(text, '\'');
      OpenIdentifierOf(text, '\'');
    case OpenLine(text) =>
      assert s[0] == '-' && s[1] == '-' && s[2..] == text;
      LineEnds(text, "");
    case OpenBlock(text) =>
      assert s[0] == '/' && s[1] == '*' && s[2..] == text;
      BlockEnds(text, "");
  }

  /** The tokens of a proper rendering are the tokens it stands for, whatever its comments, spacing and quoting. */
  lemma {:induction false} TokensAreMeaning(pieces: seq<Piece>, tail: Tail)
    requires Proper(pieces, tail)
    ensures Tokens(Text(pieces, tail)) == Meaning(pieces, tail)
    decreases |pieces|
  {
    hide Lexed, PieceText, PieceTokens, ProperPiece, Fits;
    if |pieces| == 0 {
      TailIsRead(tail);
    } else {
      PieceIsRead(pieces[0], Text(pieces[1..], tail));
      TokensAreMeaning(pieces[1..], tail);
    }
  }

  // ----- every text is a rendering

  lemma {:induction false} SplitWord(s: string) returns (word: string, rest: string)
    ensures s == word + rest && (forall i :: 0 <= i < |word| ==> IsTokenChar(word[i]))
    ensures |rest| == 0 || !IsTokenChar(rest[0])
    ensures |s| > 0 && IsTokenChar(s[0]) ==> |word| > 0
    decreases s
  {
    if |s| == 0 || !IsTokenChar(s[0]) {
      word, rest := "", s;
    } else {
      word, rest := SplitWord(s[1..]);
      word := [s[0]] + word;
      assert s == [s[0]] + s[1..];
    }
  }

  lemma {:induction false} SplitLine(s: string) returns (text: string, rest: string)
    ensures '\n' !in text && if '\n' in s then s == text + ("\n" + rest) else s == text
    decreases s
  {
    if |s| == 0 {
      text, rest := "", "";
    } else if s[0] == '\n' {
      text, rest := "", s[1..];
      assert s == "\n" + rest;
    } else {
      text, rest := SplitLine(s[1..]);
      assert s == [s[0]] + s[1..];
      text := [s[0]] + text;
    }
  }

  lemma {:induction false} SplitBlock(s: string) returns (text: string, rest: string, closed: bool)
    ensures !ClosesBlock(text) && if closed then s == text + ("*/" + rest) else s == text
    ensures closed ==> |rest| < |s|
    decreases s
  {
    if |s| == 0 {
      text, rest, closed := "", "", false;
    } else if |s| > 1 && s[0] == '*' && s[1] == '/' {
      text, rest, closed := "", s[2..], true;
      assert s == "*/" + rest;
    } else {
      text, rest, closed := SplitBlock(s[1..]);
      assert s == [s[0]] + s[1..];
      ghost var longer := [s[0]] + text;
      forall i | 0 <= i < |longer| - 1 ensures !(longer[i] == '*' && longer[i + 1] == '/') {
        if i == 0 {
          assert longer[1] == s[1];
        } else {
          assert longer[i] == text[i - 1] && longer[i + 1] == text[i];
        }
      }
      text := longer;
    }
  }

  lemma {:induction false} SplitQuoted(s: string, terminator: char) returns (text: string, rest: string, closed: bool)
    requires terminator == ']' || Doubles(terminator)
    ensures terminator == ']' ==> ']' !in text
    ensures if closed then s == Doubled(text, terminator) + ([terminator] + rest) else s == Doubled(text, terminator)
    ensures closed && Doubles(terminator) ==> !StartsWith(rest, terminator)
    decreases |s|
  {
    if |s| == 0 {
      text, rest, closed := "", "", false;
    } else if s[0] == terminator {
      if Doubles(terminator) && |s| > 1 && s[1] == terminator {
        text, rest, closed := SplitQuoted(s[2..], terminator);
        assert s == [terminator, terminator] + s[2..];
        DoubledMore(terminator, text, terminator);
        text := [terminator] + text;
      } else {
        text, rest, closed := "", s[1..], true;
        assert s == [terminator] + rest && Doubled("", terminator) == "";
      }
    } else {
      text, rest, closed := SplitQuoted(s[1..], terminator);
      assert s == [s[0]] + s[1..];
      DoubledMore(s[0], text, terminator);
      text := [s[0]] + text;
    }
  }

  lemma DoubledMore(c: char, text: string, quote: char)
    ensures Doubled([c] + text, quote) == (if c == quote then [quote, quote] else [c]) + Doubled(text, quote)
  {
    assert ([c] + text)[1..] == text;
  }

  lemma OnePieceMore(p: Piece, pieces: seq<Piece>, tail: Tail)
    requires ProperPiece(p) && Proper(pieces, tail) && Fits(p, Text(pieces, tail))
    ensures Proper([p] + pieces, tail) && Text([p] + pieces, tail) == PieceText(p) + Text(pieces, tail)
  {
    assert ([p] + pieces)[1..] == pieces;
  }

  ghost predicate Begins(s: string, p: Piece, rest: string, tail: Option<Tail>) {
    if tail.Some? then ProperTail(tail.value) && TailText(tail.value) == s
    else ProperPiece(p) && Fits(p, rest) && s == PieceText(p) + rest && |rest| < |s|
  }

  lemma FirstLineComment(s: string) returns (p: Piece, rest: string, tail: Option<Tail>)
    requires |s| > 1 && s[0] == '-' && s[1] == '-'
    ensures Begins(s, p, rest, tail)
  {
    p, rest, tail := Dot, "", None;
    var text, after := SplitLine(s[2..]);
    assert s == "--" + s[2..];
    if '\n' in s[2..] { p, rest := LineComment(text), after; } else { tail := Some(OpenLine(text)); }
  }

  lemma FirstBlockComment(s: string) returns (p: Piece, rest: string, tail: Option<Tail>)
    requires |s| > 1 && s[0] == '/' && s[1] == '*'
    ensures Begins(s, p, rest, tail)
  {
    hide ClosesBlock;
    p, rest, tail := Dot, "", None;
    var text, after, closed := SplitBlock(s[2..]);
    assert s == "/*" + s[2..];
    if closed { p, rest := BlockComment(text), after; } else { tail := Some(OpenBlock(text)); }
  }

  lemma FirstLiteral(s: string) returns (p: Piece, rest: string, tail: Option<Tail>)
    requires |s| > 0 && s[0] == '\''
    ensures Begins(s, p, rest, tail)
  {
    hide Doubled;
    p, rest, tail := Dot, "", None;
    var text, after, closed := SplitQuoted(s[1..], '\'');
    assert s == "'" + s[1..];
    if closed { p, rest := Literal(text), after; } else { tail := Some(OpenLiteral(text)); }
  }

  lemma FirstName(s: string) returns (p: Piece, rest: string, tail: Option<Tail>)
    requires |s| > 0 && (s[0] == '"' || s[0] == '`' || s[0] == '[')
    ensures Begins(s, p, rest, tail)
  {
    hide Begins;
    p, rest, tail := FirstQuoted(s, if s[0] == '"' then DoubleQuotes else if s[0] == '`' then Backticks else Brackets);
  }

  lemma FirstQuoted(s: string, style: Style) returns (p: Piece, rest: string, tail: Option<Tail>)
    requires |s| > 0 && s[0] == Opening(style)
    ensures Begins(s, p, rest, tail)
  {
    hide Doubled, Opening;
    p, rest, tail := Dot, "", None;
    var text, after, closed := SplitQuoted(s[1..], Closing(style));
    var body, open := Doubled(text, Closing(style)), [Opening(style)];
    assert s == open + s[1..];
    if closed {
      p, rest := Name(text, style), after;
      Assoc(body, [Closing(style)], after);
      Assoc(open, body + [Closing(style)], after);
    } else {
      tail := Some(OpenName(text, style));
    }
  }

  lemma FirstPlain(s: string) returns (p: Piece, rest: string, tail: Option<Tail>)
    requires |s| > 0 && !(|s| > 1 && s[0] == '-' && s[1] == '-') && !(|s| > 1 && s[0] == '/' && s[1] == '*')
    requires s[0] != '\'' && s[0] != '"' && s[0] != '`' && s[0] != '['
    ensures Begins(s, p, rest, tail)
  {
    tail := None;
    if s[0] == '.' {
      p, rest := Dot, s[1..];
      assert s == "." + rest;
    } else if IsTokenChar(s[0]) {
      var word, after := SplitWord(s);
      p, rest := Word(word), after;
    } else {
      p, rest := Separator(s[0]), s[1..];
      assert s == [s[0]] + rest;
    }
  }

  /** The first piece of a text, or the tail the text is. */
  lemma FirstPiece(s: string) returns (p: Piece, rest: string, tail: Option<Tail>)
    requires |s| > 0
    ensures Begins(s, p, rest, tail)
  {
    hide Begins;
    if |s| > 1 && s[0] == '-' && s[1] == '-' {
      p, rest, tail := FirstLineComment(s);
    } else if |s| > 1 && s[0] == '/' && s[1] == '*' {
      p, rest, tail := FirstBlockComment(s);
    } else if s[0] == '\'' {
      p, rest, tail := FirstLiteral(s);
    } else if s[0] == '"' || s[0] == '`' || s[0] == '[' {
      p, rest, tail := FirstName(s);
    } else {
      p, rest, tail := FirstPlain(s);
    }
  }

  /** Every text is a proper rendering of some tokens, and those are the tokens it has. */
  lemma {:induction false} EveryTextIsRendered(s: string) returns (pieces: seq<Piece>, tail: Tail)
    ensures Proper(pieces, tail) && Text(pieces, tail) == s && Tokens(s) == Meaning(pieces, tail)
    decreases |s|
  {
    hide PieceText, PieceTokens, ProperPiece, Fits, Lexed;
    if |s| == 0 {
      pieces, tail := [], End;
    } else {
      var p, rest, end := FirstPiece(s);
      if end.Some? {
        pieces, tail := [], end.value;
      } else {
        var more, last := EveryTextIsRendered(rest);
        OnePieceMore(p, more, last);
        pieces, tail := [p] + more, last;
      }
    }
    TokensAreMeaning(pieces, tail);
  }
}
