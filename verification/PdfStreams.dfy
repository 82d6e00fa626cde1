/**
 Page content read the way a PDF reader reads it: literal strings (section 7.3.4.2 of ISO 32000-1) and the text
 operators that move the baseline and show them.
 */
module PdfStreams {
  import opened Wrappers
  import opened Texts
  import opened Pdf

  // ----- the reader

  predicate IsSpace(c: char) {
    c == ' ' || c == '\n' || c == '\r' || c == '\t' || c == '\0' || c == '\U{0c}'
  }

  predicate IsDelimiter(c: char) {
    c == '(' || c == ')' || c == '<' || c == '>' || c == '[' || c == ']' || c == '{' || c == '}' || c == '/' || c == '%'
  }

  predicate IsRegular(c: char) {
    !IsSpace(c) && !IsDelimiter(c)
  }

  predicate IsOctal(c: char) {
    '0' <= c <= '7'
  }

  /** The length of the octal code at the start: at most three digits. */
  function OctalLength(s: string): (n: nat)
    ensures n <= |s| && n <= 3
  {
    if |s| == 0 || !IsOctal(s[0]) then 0
    else if |s| == 1 || !IsOctal(s[1]) then 1
    else if |s| == 2 || !IsOctal(s[2]) then 2
    else 3
  }

  function OctalValue(s: string): nat
    requires forall i :: 0 <= i < |s| ==> IsOctal(s[i])
  {
    if |s| == 0 then 0 else 8 * OctalValue(s[..|s| - 1]) + OctalDigit(s[|s| - 1])
  }

  function OctalDigit(c: char): nat
    requires IsOctal(c)
  {
    c as int - '0' as int
  }

  /** What a literal string denotes, from behind its opening parenthesis, and what follows its closing one. */
  function LiteralString(s: string, depth: nat): (r: (string, string))
    ensures |r.1| <= |s|
  {
    if |s| == 0 then ("", "")
    else if s[0] == ')' then
      if depth == 0 then ("", s[1..])
      else var (t, rest) := LiteralString(s[1..], depth - 1); (")" + t, rest)
    else if s[0] == '(' then var (t, rest) := LiteralString(s[1..], depth + 1); ("(" + t, rest)
    else if s[0] == '\\' then
      if |s| == 1 then ("", "")
      else if IsOctal(s[1]) then
        var n := OctalLength(s[1..]);
        var (t, rest) := LiteralString(s[1 + n..], depth);
        ([ByteChar(OctalValue(s[1..1 + n]) % 0x100)] + t, rest)
      else if s[1] == '\r' then
        LiteralString(if |s| > 2 && s[2] == '\n' then s[3..] else s[2..], depth)
      else if s[1] == '\n' then LiteralString(s[2..], depth)
      else
        var (t, rest) := LiteralString(s[2..], depth);
        ([Unescaped(s[1])] + t, rest)
    else if s[0] == '\r' then
      var (t, rest) := LiteralString(if |s| > 1 && s[1] == '\n' then s[2..] else s[1..], depth);
      ("\n" + t, rest)
    else
      var (t, rest) := LiteralString(s[1..], depth);
      ([s[0]] + t, rest)
  }

  /** The character behind a backslash; an unknown one stands for itself. */
  function Unescaped(c: char): char {
    if c == 'n' then '\n' else if c == 'r' then '\r' else if c == 't' then '\t'
    else if c == 'b' then '\U{08}' else if c == 'f' then '\U{0c}' else c
  }

  function RegularRun(s: string): (n: nat)
    ensures n <= |s|
    ensures |s| > 0 && IsRegular(s[0]) ==> n > 0
  {
    if |s| == 0 || !IsRegular(s[0]) then 0 else 1 + RegularRun(s[1..])
  }

  function AfterComment(s: string): (rest: string)
    ensures |rest| <= |s|
  {
    if |s| == 0 then "" else if s[0] == '\n' || s[0] == '\r' then s else AfterComment(s[1..])
  }

  predicate AllDigits(s: string) {
    forall i :: 0 <= i < |s| ==> IsDigit(s[i])
  }

  function ReadNumber(word: string): Option<int> {
    if |word| > 0 && AllDigits(word) then Some(NatValue(word))
    else if |word| > 1 && word[0] == '-' && AllDigits(word[1..]) then Some(-(NatValue(word[1..]) as int))
    else None
  }

  datatype Operand = Number(n: int) | Name(name: string) | Str(text: string)

  /** Where the next text starts, and the font selected for it. */
  datatype Pen = Pen(x: int, y: int, font: string, size: int)

  const START := Pen(0, 0, "", 0)

  /** A text shown on a page. */
  datatype Shown = Shown(pen: Pen, text: string)

  /** An operand or operator: the operands and the pen after it, and what it shows. */
  function Obeyed(word: string, stack: seq<Operand>, pen: Pen): (seq<Operand>, Pen, seq<Shown>) {
    match ReadNumber(word)
    case Some(n) => (stack + [Number(n)], pen, [])
    case None =>
      var after := if |stack| == 2 then Drawn(word, stack[0], stack[1], pen) else pen;
      if word == "BT" then ([], pen.(x := 0, y := 0), [])
      else if word == "Tj" && |stack| == 1 && stack[0].Str? then ([], pen, [Shown(pen, stack[0].text)])
      else ([], after, [])
  }

  /** The two operators of two operands: move to the start of a line, and select a font. */
  function Drawn(word: string, a: Operand, b: Operand, pen: Pen): Pen {
    if word == "Td" && a.Number? && b.Number? then pen.(x := pen.x + a.n, y := pen.y + b.n)
    else if word == "Tf" && a.Name? && b.Number? then pen.(font := a.name, size := b.n)
    else pen
  }

  /** The texts a content stream shows, in order. */
  function ShownBy(s: string, stack: seq<Operand>, pen: Pen): seq<Shown>
    decreases |s|
  {
    if |s| == 0 then []
    else if IsSpace(s[0]) then ShownBy(s[1..], stack, pen)
    else if s[0] == '%' then ShownBy(AfterComment(s[1..]), stack, pen)
    else if s[0] == '(' then
      var (t, rest) := LiteralString(s[1..], 0);
      ShownBy(rest, stack + [Str(t)], pen)
    else if s[0] == '/' then
      var n := RegularRun(s[1..]);
      ShownBy(s[1 + n..], stack + [Name(s[1..1 + n])], pen)
    else if IsRegular(s[0]) then
      var n := RegularRun(s);
      var (after, moved, shown) := Obeyed(s[..n], stack, pen);
      shown + ShownBy(s[n..], after, moved)
    else ShownBy(s[1..], stack, pen)
  }

  // ----- one token at a time

  lemma {:induction false} RunEnds(word: string, rest: string)
    requires forall i :: 0 <= i < |word| ==> IsRegular(word[i])
    requires |rest| == 0 || !IsRegular(rest[0])
    ensures RegularRun(word + rest) == |word|
    decreases word
  {
    if |word| == 0 {
      assert word + rest == rest;
    } else {
      assert (word + rest)[0] == word[0] && (word + rest)[1..] == word[1..] + rest;
      RunEnds(word[1..], rest);
    }
  }

  lemma ReadsWord(word: string, space: char, rest: string, stack: seq<Operand>, pen: Pen)
    requires |word| > 0 && (forall i :: 0 <= i < |word| ==> IsRegular(word[i])) && IsSpace(space)
    ensures var (after, moved, shown) := Obeyed(word, stack, pen);
            ShownBy(word + ([space] + rest), stack, pen) == shown + ShownBy(rest, after, moved)
  {
    hide Obeyed, RegularRun, LiteralString, AfterComment;
    var tail := [space] + rest;
    var s := word + tail;
    RunEnds(word, tail);
    assert s[0] == word[0] && s[..|word|] == word && s[|word|..] == tail;
    assert tail[0] == space && tail[1..] == rest;
  }

  lemma ReadsName(name: string, space: char, rest: string, stack: seq<Operand>, pen: Pen)
    requires (forall i :: 0 <= i < |name| ==> IsRegular(name[i])) && IsSpace(space)
    ensures ShownBy("/" + (name + ([space] + rest)), stack, pen) == ShownBy(rest, stack + [Name(name)], pen)
  {
    hide Obeyed, RegularRun, LiteralString, AfterComment;
    var tail := [space] + rest;
    var s := "/" + (name + tail);
    RunEnds(name, tail);
    assert s[1..] == name + tail && s[1..1 + |name|] == name && s[1 + |name|..] == tail;
    assert tail[0] == space && tail[1..] == rest;
  }

  lemma ReadsNumber(n: nat, space: char, rest: string, stack: seq<Operand>, pen: Pen)
    requires IsSpace(space)
    ensures ShownBy(Digits(n) + ([space] + rest), stack, pen) == ShownBy(rest, stack + [Number(n)], pen)
    ensures ShownBy("-" + (Digits(n) + ([space] + rest)), stack, pen)
         == ShownBy(rest, stack + [Number(-(n as int))], pen)
  {
    hide ShownBy;
    var d := Digits(n);
    DigitsValue(n);
    ReadsWord(d, space, rest, stack, pen);
    assert ("-" + d)[1..] == d && !IsDigit(("-" + d)[0]);
    ReadsWord("-" + d, space, rest, stack, pen);
    assert "-" + (d + ([space] + rest)) == ("-" + d) + ([space] + rest);
  }

  // ----- literal strings

  /** A line as a reader sees it, by code point: control characters that have no escape become spaces. */
  function CleanedChar(c: char): char {
    var n := c as int;
    if (n < 0x20 || 0x7F <= n <= 0x9F) && n !in {0x08, 0x09, 0x0A, 0x0C, 0x0D} then ' ' else c
  }

  function Cleaned(s: string): (r: string)
    ensures |r| == |s| && forall i :: 0 <= i < |s| ==> r[i] == CleanedChar(s[i])
  {
    seq(|s|, i requires 0 <= i < |s| => CleanedChar(s[i]))
  }

  lemma {:induction false} EscapedConcat(a: string, b: string)
    ensures Escaped(a + b) == Escaped(a) + Escaped(b)
  {
    hide EscapedChar;
    if |b| == 0 {
      assert a + b == a;
    } else {
      assert (a + b)[..|a + b| - 1] == a + b[..|b| - 1];
      EscapedConcat(a, b[..|b| - 1]);
    }
  }

  lemma FirstEscaped(line: string)
    requires |line| > 0
    ensures Escaped(line) == EscapedChar(line[0]) + Escaped(line[1..])
  {
    hide *;
    assert line == [line[0]] + line[1..];
    EscapedConcat([line[0]], line[1..]);
    EscapedOne(line[0]);
  }

  lemma EscapedOne(c: char)
    ensures Escaped([c]) == EscapedChar(c)
  {
    hide EscapedChar;
    assert [c][..0] == "" && Escaped("") + EscapedChar(c) == EscapedChar(c);
  }

  predicate IsPlain(c: char) {
    c != '(' && c != ')' && c != '\\' && c != '\r'
  }

  lemma {:induction false} PlainStays(bytes: string, rest: string)
    requires forall i :: 0 <= i < |bytes| ==> IsPlain(bytes[i])
    ensures var (t, after) := LiteralString(rest, 0); LiteralString(bytes + rest, 0) == (bytes + t, after)
    decreases bytes
  {
    if |bytes| == 0 {
      assert bytes + rest == rest && bytes + LiteralString(rest, 0).0 == LiteralString(rest, 0).0;
    } else {
      assert (bytes + rest)[0] == bytes[0] && (bytes + rest)[1..] == bytes[1..] + rest;
      PlainStays(bytes[1..], rest);
      assert bytes == [bytes[0]] + bytes[1..];
      Assoc([bytes[0]], bytes[1..], LiteralString(rest, 0).0);
    }
  }

  lemma ReadsEscapedChar(c: char, rest: string)
    ensures var (t, after) := LiteralString(rest, 0);
            LiteralString(EscapedChar(c) + rest, 0) == (Encoded(CleanedChar(c)) + t, after)
  {
    hide LiteralString;
    var e := EscapedChar(c);
    if |e| == 2 && e[0] == '\\' {
      ReadsEscape(e[1], rest);
      assert e == ['\\', e[1]];
    } else {
      PlainStays(e, rest);
    }
  }

  lemma ReadsEscape(c: char, rest: string)
    requires c in ['n', 'r', 't', 'b', 'f', '(', ')', '\\']
    ensures var (t, after) := LiteralString(rest, 0);
            LiteralString(['\\', c] + rest, 0) == ([Unescaped(c)] + t, after)
  {
    var s := ['\\', c] + rest;
    assert s[0] == '\\' && s[1] == c && s[2..] == rest;
  }

  /** A written line is read back as its UTF-8 bytes, with unescapable controls as spaces. */
  lemma {:induction false} ReadsLine(line: string, rest: string)
    ensures LiteralString(Escaped(line) + (")" + rest), 0) == (Utf8(Cleaned(line)), rest)
    decreases line
  {
    hide EscapedChar, Encoded, LiteralString, Escaped;
    if |line| == 0 {
      NothingWritten(rest);
      assert line == "" && Cleaned(line) == "";
    } else {
      var more := line[1..];
      FirstEscaped(line);
      assert Cleaned(line)[1..] == Cleaned(more);
      Assoc(EscapedChar(line[0]), Escaped(more), ")" + rest);
      ReadsLine(more, rest);
      ReadsEscapedChar(line[0], Escaped(more) + (")" + rest));
    }
  }

  lemma NothingWritten(rest: string)
    ensures Escaped("") == "" && Utf8("") == "" && LiteralString("" + (")" + rest), 0) == ("", rest)
  {
    assert "" + (")" + rest) == ")" + rest && (")" + rest)[1..] == rest;
  }

  // ----- a whole page

  lemma ReadsSpace(space: char, rest: string, stack: seq<Operand>, pen: Pen)
    requires IsSpace(space)
    ensures ShownBy([space] + rest, stack, pen) == ShownBy(rest, stack, pen)
  {
    hide LiteralString, RegularRun, AfterComment, Obeyed;
    assert ([space] + rest)[1..] == rest;
  }

  lemma ReadsString(line: string, rest: string, stack: seq<Operand>, pen: Pen)
    ensures ShownBy("(" + (Escaped(line) + (")" + rest)), stack, pen)
         == ShownBy(rest, stack + [Str(Utf8(Cleaned(line)))], pen)
  {
    hide LiteralString, RegularRun, AfterComment, Obeyed, Escaped, Utf8, Cleaned;
    var s := "(" + (Escaped(line) + (")" + rest));
    assert s[0] == '(' && s[1..] == Escaped(line) + (")" + rest);
    ReadsLine(line, rest);
  }

  function Lower(pen: Pen, height: int): Pen {
    pen.(y := pen.y - height)
  }

  /** What a page shows: each line one line height below the one before, all from one margin and in one font. */
  function ShownLines(lines: seq<string>, top: Pen, height: int): seq<Shown> {
    if |lines| == 0 then []
    else [Shown(top, Utf8(Cleaned(lines[0])))] + ShownLines(lines[1..], Lower(top, height), height)
  }

  predicate RegularName(name: string) {
    forall i :: 0 <= i < |name| ==> IsRegular(name[i])
  }

  lemma {:induction false} RegularBytes(name: string)
    requires RegularName(name)
    ensures RegularName(Utf8(name))
    decreases name
  {
    hide Encoded;
    if |name| > 0 {
      RegularBytes(name[1..]);
      if name[0] as int < 0x80 { AsciiIsItself(name[0]); }
    }
  }

  lemma AsciiIsItself(c: char)
    requires c as int < 0x80
    ensures Encoded(c) == [c]
  {
  }

  lemma OperatorsAreWords()
    ensures forall i :: 0 <= i < 2 ==> !IsDigit("BT"[i]) && !IsDigit("Tf"[i]) && !IsDigit("Td"[i])
    ensures forall i :: 0 <= i < 2 ==> !IsDigit("Tj"[i]) && !IsDigit("ET"[i])
    ensures "BT" != "Tj" && "Tf" != "BT" && "Tf" != "Tj" && "Tf" != "Td" && "Td" != "BT" && "Td" != "Tj"
    ensures "ET" != "BT" && "ET" != "Tj"
  {
    assert "BT"[0] == 'B' && "ET"[0] == 'E' && "Tj"[1] == 'j' && "Td"[1] == 'd' && "Tf"[1] == 'f';
  }

  lemma Begins(stack: seq<Operand>, pen: Pen)
    ensures Obeyed("BT", stack, pen) == ([], pen.(x := 0, y := 0), [])
  {
    OperatorsAreWords();
  }

  lemma Ends(pen: Pen)
    ensures Obeyed("ET", [], pen) == ([], pen, [])
  {
    OperatorsAreWords();
  }

  lemma Selects(font: string, size: int, pen: Pen)
    ensures Obeyed("Tf", [Name(font), Number(size)], pen) == ([], pen.(font := font, size := size), [])
  {
    OperatorsAreWords();
  }

  lemma Moves(dx: int, dy: int, pen: Pen)
    ensures Obeyed("Td", [Number(dx), Number(dy)], pen) == ([], pen.(x := pen.x + dx, y := pen.y + dy), [])
  {
    OperatorsAreWords();
  }

  lemma Shows(text: string, pen: Pen)
    ensures Obeyed("Tj", [Str(text)], pen) == ([], pen, [Shown(pen, text)])
  {
    OperatorsAreWords();
  }

  /** `number number Td`: the pen moves by the two numbers. */
  lemma ReadsMove(x: nat, y: string, dy: int, rest: string, pen: Pen)
    requires forall stack :: ShownBy(y + (" " + ("Td\n" + rest)), stack, pen)
                          == ShownBy("Td\n" + rest, stack + [Number(dy)], pen)
    ensures ShownBy(Digits(x) + (" " + (y + (" " + ("Td\n" + rest)))), [], pen)
         == ShownBy(rest, [], pen.(x := pen.x + x, y := pen.y + dy))
  {
    hide *;
    var numbers := [Number(x)] + [Number(dy)];
    assert numbers == [Number(x), Number(dy)] && [] + [Number(x)] == [Number(x)];
    SpaceOrBreak();
    ReadsNumber(x, ' ', y + (" " + ("Td\n" + rest)), [], pen);
    assert "Td\n" + rest == "Td" + (['\n'] + rest);
    RegularWords();
    ReadsWord("Td", '\n', rest, numbers, pen);
    Moves(x, dy, pen);
    NothingBefore(ShownBy(rest, [], pen.(x := pen.x + x, y := pen.y + dy)));
  }

  lemma SpaceOrBreak()
    ensures IsSpace(' ') && IsSpace('\n')
  {
  }

  lemma NothingBefore(shown: seq<Shown>)
    ensures [] + shown == shown
  {
  }

  /** Where a page's first line stands. */
  function Top(s: Settings): Pen {
    Pen(s.leftMargin, s.topBaseline, Utf8(s.fontResource), s.fontSize)
  }

  lemma ReadsStart(s: Settings, rest: string, pen: Pen)
    requires RegularName(s.fontResource)
    ensures ShownBy(ContentStart(s) + rest, [], pen) == ShownBy(rest, [], Top(s))
  {
    hide *;
    var move := Digits(s.leftMargin) + (" " + (Digits(s.topBaseline) + (" " + ("Td\n" + rest))));
    var begun := pen.(x := 0, y := 0);
    var selected := begun.(font := Utf8(s.fontResource), size := s.fontSize);
    StartText(s, rest);
    SpaceOrBreak();
    ReadsFont(s, move, pen);
    forall stack ensures ShownBy(Digits(s.topBaseline) + (" " + ("Td\n" + rest)), stack, selected)
                      == ShownBy("Td\n" + rest, stack + [Number(s.topBaseline)], selected)
    {
      ReadsNumber(s.topBaseline, ' ', "Td\n" + rest, stack, selected);
    }
    ReadsMove(s.leftMargin, Digits(s.topBaseline), s.topBaseline, rest, selected);
    TopIs(s, pen);
  }

  lemma TopIs(s: Settings, pen: Pen)
    ensures Top(s) == Pen(0 + s.leftMargin, 0 + s.topBaseline, Utf8(s.fontResource), s.fontSize)
  {
    hide Utf8;
  }

  /** The start of a text object and the font operator. */
  lemma ReadsFont(s: Settings, move: string, pen: Pen)
    requires RegularName(s.fontResource)
    ensures ShownBy("BT" + ("\n" + ("/" + (Utf8(s.fontResource) + (" " + (Digits(s.fontSize) + (" " + ("Tf" + ("\n"
                    + move)))))))), [], pen)
         == ShownBy(move, [], pen.(x := 0, y := 0, font := Utf8(s.fontResource), size := s.fontSize))
  {
    hide *;
    var font := Utf8(s.fontResource);
    var size := Digits(s.fontSize) + (" " + ("Tf" + ("\n" + move)));
    var begun := pen.(x := 0, y := 0);
    SpaceOrBreak();
    RegularWords();
    RegularCharacters(s.fontResource);
    ReadsWord("BT", '\n', "/" + (font + (" " + size)), [], pen);
    Begins([], pen);
    ReadsName(font, ' ', size, [], begun);
    assert [] + [Name(font)] == [Name(font)] && [Name(font)] + [Number(s.fontSize)] == [Name(font), Number(s.fontSize)];
    ReadsNumber(s.fontSize, ' ', "Tf" + ("\n" + move), [Name(font)], begun);
    ReadsWord("Tf", '\n', move, [Name(font), Number(s.fontSize)], begun);
    Selects(font, s.fontSize, begun);
    NothingBefore(ShownBy("/" + (font + (" " + size)), [], begun));
    NothingBefore(ShownBy(move, [], begun.(font := font, size := s.fontSize)));
  }

  lemma RegularCharacters(name: string)
    requires RegularName(name)
    ensures forall i :: 0 <= i < |Utf8(name)| ==> IsRegular(Utf8(name)[i])
  {
    hide Utf8, IsRegular;
    RegularBytes(name);
  }

  lemma RegularWords()
    ensures forall i :: 0 <= i < 2 ==> IsRegular("BT"[i]) && IsRegular("Tf"[i]) && IsRegular("Td"[i])
                                       && IsRegular("Tj"[i]) && IsRegular("ET"[i])
  {
  }

  /** The start of a page's content, token by token. */
  lemma StartText(s: Settings, rest: string)
    ensures ContentStart(s) + rest
         == "BT" + ("\n" + ("/" + (Utf8(s.fontResource) + (" " + (Digits(s.fontSize) + (" " + ("Tf" + ("\n"
            + (Digits(s.leftMargin) + (" " + (Digits(s.topBaseline) + (" " + ("Td\n" + rest)))))))))))))
  {
    hide Digits, Utf8;
    var font, size, left, top := Utf8(s.fontResource), Digits(s.fontSize), Digits(s.leftMargin), Digits(s.topBaseline);
    var h := " " + ("Td\n" + rest);
    assert " Td\n" + rest == h;
    var g := " " + (top + h);
    var f := left + g;
    assert left + (" " + (top + " Td\n")) + rest == f;
    var e := " " + ("Tf" + ("\n" + f));
    assert " Tf\n" + f == e;
    var d := size + e;
    assert size + (" Tf\n" + (left + (" " + (top + " Td\n")))) + rest == d;
    var c := font + (" " + d);
    assert font + (" " + (size + (" Tf\n" + (left + (" " + (top + " Td\n")))))) + rest == c;
    assert "BT\n/" + c == "BT" + ("\n" + ("/" + c));
  }

  /** A written line, token by token. */
  lemma LineText(line: string, s: Settings, rest: string)
    ensures "(" + (Escaped(line) + AfterLine(s)) + rest
         == "(" + (Escaped(line) + (")" + (" " + ("Tj" + ("\n" + ("0" + (" " + ("-"
            + (Digits(s.lineHeight) + (" " + ("Td\n" + rest)))))))))))
  {
    hide Digits, Escaped;
    var height, text := Digits(s.lineHeight), Escaped(line);
    var a := height + (" " + ("Td\n" + rest));
    assert height + " Td\n" + rest == a;
    var b := ")" + (" " + ("Tj" + ("\n" + ("0" + (" " + ("-" + a))))));
    assert ") Tj\n0 -" + a == b;
    assert AfterLine(s) + rest == b;
    assert "(" + (text + AfterLine(s)) + rest == "(" + (text + (AfterLine(s) + rest));
  }

  lemma ReadsWrittenLine(line: string, s: Settings, rest: string, pen: Pen)
    ensures ShownBy("(" + (Escaped(line) + AfterLine(s)) + rest, [], pen)
         == [Shown(pen, Utf8(Cleaned(line)))] + ShownBy(rest, [], Lower(pen, s.lineHeight))
  {
    hide *;
    var text := Utf8(Cleaned(line));
    var h: int := s.lineHeight;
    var down := "-" + (Digits(h) + (" " + ("Td\n" + rest)));
    var show := "Tj" + ("\n" + ("0" + (" " + down)));
    LineText(line, s, rest);
    RegularWords();
    SpaceOrBreak();
    ReadsString(line, " " + show, [], pen);
    assert [] + [Str(text)] == [Str(text)];
    ReadsSpace(' ', show, [Str(text)], pen);
    ReadsWord("Tj", '\n', "0" + (" " + down), [Str(text)], pen);
    Shows(text, pen);
    ZeroDigit();
    forall stack ensures ShownBy("-" + Digits(h) + (" " + ("Td\n" + rest)), stack, pen)
                      == ShownBy("Td\n" + rest, stack + [Number(-h)], pen)
    {
      ReadsNumber(h, ' ', "Td\n" + rest, stack, pen);
      Assoc("-", Digits(h), " " + ("Td\n" + rest));
    }
    Assoc("-", Digits(h), " " + ("Td\n" + rest));
    ReadsMove(0, "-" + Digits(h), -h, rest, pen);
    LowerIs(pen, h);
  }

  lemma LowerIs(pen: Pen, height: int)
    ensures Lower(pen, height) == pen.(x := pen.x + 0, y := pen.y + -height)
  {
  }

  lemma ZeroDigit()
    ensures Digits(0) == "0"
  {
  }

  lemma {:induction false} ShownLast(lines: seq<string>, top: Pen, height: int)
    requires |lines| > 0
    ensures var n := |lines| - 1;
            ShownLines(lines, top, height)
            == ShownLines(lines[..n], top, height) + [Shown(Lower(top, n * height), Utf8(Cleaned(lines[n])))]
    decreases |lines|
  {
    hide Utf8, Cleaned;
    var n := |lines| - 1;
    if n > 0 {
      ShownLast(lines[1..], Lower(top, height), height);
      assert lines[1..][..n - 1] == lines[..n][1..];
      assert height + (n - 1) * height == n * height;
    }
  }

  lemma {:induction false} ReadsLines(lines: seq<string>, s: Settings, rest: string, pen: Pen)
    ensures ShownBy(LineTexts(lines, s) + rest, [], pen)
         == ShownLines(lines, pen, s.lineHeight) + ShownBy(rest, [], Lower(pen, |lines| * s.lineHeight))
  {
    hide ShownBy, Escaped, AfterLine, Utf8, Cleaned;
    if |lines| == 0 {
      assert "" + rest == rest;
    } else {
      var n := |lines| - 1;
      var last := "(" + (Escaped(lines[n]) + AfterLine(s));
      Assoc(LineTexts(lines[..n], s), last, rest);
      ReadsLines(lines[..n], s, last + rest, pen);
      ReadsWrittenLine(lines[n], s, rest, Lower(pen, n * s.lineHeight));
      ShownLast(lines, pen, s.lineHeight);
      assert n * s.lineHeight + s.lineHeight == |lines| * s.lineHeight;
    }
  }

  /** A reader sees every line of a page, in order, each on its own line, from the left margin and in the font. */
  lemma PageShowsLines(lines: seq<string>, s: Settings)
    requires RegularName(s.fontResource)
    ensures ShownBy(PageContent(lines, s), [], START) == ShownLines(lines, Top(s), s.lineHeight)
  {
    hide ShownBy, LineTexts, ContentStart, ShownLines, Obeyed;
    ReadsStart(s, LineTexts(lines, s) + "ET\n", START);
    ReadsLines(lines, s, "ET\n", Top(s));
    RegularWords();
    Ends(Lower(Top(s), |lines| * s.lineHeight));
    var end := Lower(Top(s), |lines| * s.lineHeight);
    assert "ET\n" == "ET" + (['\n'] + "");
    ReadsWord("ET", '\n', "", [], end);
    NothingShown(end);
  }

  lemma NothingShown(pen: Pen)
    ensures ShownBy("", [], pen) == []
  {
  }

  // ----- all pages

  function ShownOnPages(pages: seq<seq<string>>, s: Settings): seq<string> {
    if |pages| == 0 then []
    else TextsShown(ShownBy(PageContent(pages[0], s), [], START)) + ShownOnPages(pages[1..], s)
  }

  function TextsShown(shown: seq<Shown>): seq<string> {
    if |shown| == 0 then [] else [shown[0].text] + TextsShown(shown[1..])
  }

  function CleanedTexts(lines: seq<string>): seq<string> {
    if |lines| == 0 then [] else [Utf8(Cleaned(lines[0]))] + CleanedTexts(lines[1..])
  }

  lemma {:induction false} TextsOfLines(lines: seq<string>, top: Pen, height: int)
    ensures TextsShown(ShownLines(lines, top, height)) == CleanedTexts(lines)
    decreases |lines|
  {
    hide Utf8, Cleaned;
    if |lines| > 0 { TextsOfLines(lines[1..], Lower(top, height), height); }
  }

  lemma {:induction false} CleanedConcat(a: seq<string>, b: seq<string>)
    ensures CleanedTexts(a + b) == CleanedTexts(a) + CleanedTexts(b)
    decreases |a|
  {
    hide Utf8, Cleaned;
    if |a| == 0 {
      assert a + b == b;
    } else {
      assert (a + b)[1..] == a[1..] + b;
      CleanedConcat(a[1..], b);
    }
  }

  lemma {:induction false} ChunksShowLines(lines: seq<string>, n: nat, s: Settings)
    requires n > 0 && RegularName(s.fontResource)
    ensures ShownOnPages(Chunks(lines, n), s) == CleanedTexts(lines)
    decreases |lines|
  {
    hide CleanedTexts, ShownBy, PageContent, ShownLines;
    var first := if |lines| <= n then lines else lines[..n];
    PageShowsLines(first, s);
    TextsOfLines(first, Top(s), s.lineHeight);
    if |lines| <= n {
      assert Chunks(lines, n)[1..] == [];
    } else {
      assert Chunks(lines, n)[1..] == Chunks(lines[n..], n);
      ChunksShowLines(lines[n..], n, s);
      CleanedConcat(lines[..n], lines[n..]);
      assert lines == lines[..n] + lines[n..];
    }
  }

  /** The streams of all pages show every line of the report, in order, and nothing else. */
  lemma PagesShowLines(lines: seq<string>, s: Settings)
    requires RegularName(s.fontResource)
    ensures ShownOnPages(PaginateLines(lines, s), s) == CleanedTexts(lines)
  {
    ChunksShowLines(lines, LinesPerPage(s), s);
  }

  // ----- margins

  lemma {:induction false} ChunksAreShort(lines: seq<string>, n: nat, i: nat)
    requires n > 0 && i < |Chunks(lines, n)|
    ensures |Chunks(lines, n)[i]| <= n
    decreases |lines|
  {
    if |lines| > n && i > 0 { ChunksAreShort(lines[n..], n, i - 1); }
  }

  lemma {:induction false} BaselineOf(lines: seq<string>, top: Pen, height: int, j: nat)
    requires j < |lines|
    ensures |ShownLines(lines, top, height)| == |lines|
    ensures ShownLines(lines, top, height)[j] == Shown(Lower(top, j * height), Utf8(Cleaned(lines[j])))
    decreases |lines|
  {
    hide Utf8, Cleaned;
    if |lines| > 1 {
      BaselineOf(lines[1..], Lower(top, height), height, if j > 0 then j - 1 else 0);
      if j > 0 { assert height + (j - 1) * height == j * height; }
    }
  }

  /** No page shows a text below the bottom margin, if the top baseline is not below it. */
  lemma BaselinesAboveMargin(lines: seq<string>, s: Settings, i: nat, j: nat)
    requires RegularName(s.fontResource) && s.topBaseline >= s.bottomMargin
    requires i < |PaginateLines(lines, s)| && j < |PaginateLines(lines, s)[i]|
    ensures var shown := ShownBy(PageContent(PaginateLines(lines, s)[i], s), [], START);
            |shown| == |PaginateLines(lines, s)[i]|
            && s.bottomMargin <= shown[j].pen.y <= s.topBaseline && shown[j].pen.x == s.leftMargin
  {
    hide ShownBy, PageContent, Chunks, ShownLines;
    var page := PaginateLines(lines, s)[i];
    var usable, h := s.topBaseline - s.bottomMargin, s.lineHeight;
    PageShowsLines(page, s);
    BaselineOf(page, Top(s), h, j);
    ChunksAreShort(lines, LinesPerPage(s), i);
    StaysAbove(usable, h, j);
  }

  lemma StaysAbove(usable: nat, h: PositiveU8, j: nat)
    requires j <= usable / h
    ensures 0 <= j * h <= usable
  {
    assert j * h <= usable / h * h;
  }

  /** The built-in settings satisfy what the results on streams and margins ask for. */
  lemma BuiltInSettings()
    ensures RegularName(DEFAULT.fontResource) && RegularName(DEFAULT.baseFont)
    ensures DEFAULT.topBaseline >= DEFAULT.bottomMargin
    ensures LinesPerPage(DEFAULT) == 50
  {
    forall i | 0 <= i < |DEFAULT.fontResource| ensures IsRegular(DEFAULT.fontResource[i]) {
      assert DEFAULT.fontResource[i] == 'F' || DEFAULT.fontResource[i] == '1';
    }
    forall i | 0 <= i < |DEFAULT.baseFont| ensures IsRegular(DEFAULT.baseFont[i]) {
      assert DEFAULT.baseFont[i] in {'H', 'e', 'l', 'v', 't', 'i', 'c', 'a'};
    }
  }

  // ----- UTF-8 loses nothing

  lemma FirstScalar(c: char, d: char, x: string, y: string)
    requires Encoded(c) + x == Encoded(d) + y
    ensures c == d && x == y
  {
    var a, b := Encoded(c) + x, Encoded(d) + y;
    assert a[0] == Encoded(c)[0] && b[0] == Encoded(d)[0];
    assert |Encoded(c)| == |Encoded(d)|;
    assert a[..|Encoded(c)|] == Encoded(c) && b[..|Encoded(d)|] == Encoded(d);
    assert a[|Encoded(c)|..] == x && b[|Encoded(d)|..] == y;
    EncodedOnce(c, d);
  }

  /** The scalar value a UTF-8 sequence stands for. */
  function Decoded(b: string): int
    requires 1 <= |b| <= 4
  {
    if |b| == 1 then b[0] as int
    else if |b| == 2 then (b[0] as int - 0xc0) * 0x40 + (b[1] as int - 0x80)
    else if |b| == 3 then (b[0] as int - 0xe0) * 0x1000 + (b[1] as int - 0x80) * 0x40 + (b[2] as int - 0x80)
    else
      (b[0] as int - 0xf0) * 0x4_0000 + (b[1] as int - 0x80) * 0x1000 + (b[2] as int - 0x80) * 0x40
      + (b[3] as int - 0x80)
  }

  lemma SplitBits(n: nat)
    ensures n == n / 0x40 * 0x40 + n % 0x40
    ensures n / 0x40 == n / 0x1000 * 0x40 + n / 0x40 % 0x40
    ensures n / 0x1000 == n / 0x4_0000 * 0x40 + n / 0x1000 % 0x40
  {
    assert n / 0x40 / 0x40 == n / 0x1000;
    assert n / 0x1000 / 0x40 == n / 0x4_0000;
  }

  lemma DecodedIs(c: char)
    ensures Decoded(Encoded(c)) == c as int
  {
    var n, b := c as int, Encoded(c);
    SplitBits(n);
    if |b| == 2 {
      assert b[0] as int == 0xc0 + n / 0x40 && b[1] as int == 0x80 + n % 0x40;
    } else if |b| == 3 {
      assert b[0] as int == 0xe0 + n / 0x1000 && b[1] as int == 0x80 + n / 0x40 % 0x40
             && b[2] as int == 0x80 + n % 0x40;
    } else if |b| == 4 {
      assert b[0] as int == 0xf0 + n / 0x4_0000 && b[1] as int == 0x80 + n / 0x1000 % 0x40
             && b[2] as int == 0x80 + n / 0x40 % 0x40 && b[3] as int == 0x80 + n % 0x40;
    }
  }

  lemma EncodedOnce(c: char, d: char)
    requires Encoded(c) == Encoded(d)
    ensures c == d
  {
    hide Encoded, Decoded;
    DecodedIs(c);
    DecodedIs(d);
    assert c as int == d as int;
  }

  /** Different lines, cleaned, have different bytes. */
  lemma {:induction false} Utf8Injective(a: string, b: string)
    requires Utf8(a) == Utf8(b)
    ensures a == b
    decreases a
  {
    hide Encoded;
    if |a| == 0 || |b| == 0 {
      assert a == "" == b;
    } else {
      FirstScalar(a[0], b[0], Utf8(a[1..]), Utf8(b[1..]));
      Utf8Injective(a[1..], b[1..]);
      assert a == [a[0]] + a[1..] && b == [b[0]] + b[1..];
    }
  }
}
