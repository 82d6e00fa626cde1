/**
 The hand-written JSON reader of the Docker scanner (src/scanners/docker.rs): a recursive-descent parser that
 moves one position over the input. Each method is proved equal to a function of the text and the position.
 */
module JsonReader {
  import opened Wrappers
  import opened Texts
  import opened JsonValues

  // ----- what each parsing step reads, as functions

  predicate IsSpace(c: char) {
    c == ' ' || c == '\t' || c == '\n' || c == '\r'
  }

  predicate CharAt(chars: string, pos: nat, c: char) {
    pos < |chars| && chars[pos] == c
  }

  predicate DigitAt(chars: string, pos: nat) {
    pos < |chars| && IsDigit(chars[pos])
  }

  function SkipSpace(chars: string, pos: nat): (q: nat)
    requires pos <= |chars|
    ensures pos <= q <= |chars| && (q < |chars| ==> !IsSpace(chars[q]))
    decreases |chars| - pos
  {
    if pos < |chars| && IsSpace(chars[pos]) then SkipSpace(chars, pos + 1) else pos
  }

  function SkipDigits(chars: string, pos: nat): (q: nat)
    requires pos <= |chars|
    ensures pos <= q <= |chars| && !DigitAt(chars, q)
    decreases |chars| - pos
  {
    if DigitAt(chars, pos) then SkipDigits(chars, pos + 1) else pos
  }

  /** End of the integer part of a number: a lone zero or a run of digits without leading zero. */
  function IntegerEnd(chars: string, pos: nat): (r: Option<nat>)
    requires pos <= |chars|
    ensures r.Some? ==> pos < r.value <= |chars|
  {
    if CharAt(chars, pos, '0') then (if DigitAt(chars, pos + 1) then None else Some(pos + 1))
    else if DigitAt(chars, pos) then Some(SkipDigits(chars, pos))
    else None
  }

  function FractionEnd(chars: string, pos: nat): (r: Option<nat>)
    requires pos <= |chars|
    ensures r.Some? ==> pos <= r.value <= |chars|
  {
    if !CharAt(chars, pos, '.') then Some(pos)
    else if DigitAt(chars, pos + 1) then Some(SkipDigits(chars, pos + 1))
    else None
  }

  function SkipSign(chars: string, pos: nat): (q: nat)
    ensures pos <= q <= pos + 1 && (pos <= |chars| ==> q <= |chars|)
  {
    if CharAt(chars, pos, '+') || CharAt(chars, pos, '-') then pos + 1 else pos
  }

  function ExponentEnd(chars: string, pos: nat): (r: Option<nat>)
    requires pos <= |chars|
    ensures r.Some? ==> pos <= r.value <= |chars|
  {
    if !CharAt(chars, pos, 'e') && !CharAt(chars, pos, 'E') then Some(pos)
    else
      var q := SkipSign(chars, pos + 1);
      if DigitAt(chars, q) then Some(SkipDigits(chars, q)) else None
  }

  function NumberEnd(chars: string, pos: nat): (r: Option<nat>)
    requires pos <= |chars|
    ensures r.Some? ==> pos < r.value <= |chars|
  {
    match IntegerEnd(chars, if CharAt(chars, pos, '-') then pos + 1 else pos)
    case None => None
    case Some(q) =>
      match FractionEnd(chars, q)
      case None => None
      case Some(f) => ExponentEnd(chars, f)
  }

  /** The number that `n` hexadecimal digits at `pos` denote, after the digits already read gave `code`. */
  function HexCode(chars: string, pos: nat, n: nat, code: nat): Option<nat>
    decreases n
  {
    if n == 0 then Some(code)
    else if pos >= |chars| then None
    else match HexValue(chars[pos])
      case None => None
      case Some(d) => HexCode(chars, pos + 1, n - 1, code * 16 + d)
  }

  /** `char::from_u32`: surrogates and numbers above the last scalar value are no characters. */
  function Scalar(code: nat): Option<char> {
    if code < 0xD800 || 0xE000 <= code < 0x11_0000 then Some(code as char) else None
  }

  function SimpleEscape(c: char): Option<char> {
    if c == '"' || c == '\\' || c == '/' then Some(c)
    else if c == 'n' then Some('\n')
    else if c == 't' then Some('\t')
    else if c == 'r' then Some('\r')
    else if c == 'b' then Some('\U{0008}')
    else if c == 'f' then Some('\U{000C}')
    else None
  }

  /** The character an escape denotes, read from just after its backslash, and where it ends. */
  function EscapeAt(chars: string, pos: nat): (r: Option<(char, nat)>)
    ensures r.Some? ==> pos < r.value.1 <= |chars|
  {
    if pos >= |chars| then None
    else if chars[pos] == 'u' then
      HexCodeNeedsDigits(chars, pos + 1, 4, 0);
      match HexCode(chars, pos + 1, 4, 0)
      case None => None
      case Some(code) =>
        (match Scalar(code)
         case None => None
         case Some(c) => Some((c, pos + 5)))
    else match SimpleEscape(chars[pos])
      case None => None
      case Some(c) => Some((c, pos + 1))
  }

  lemma HexCodeNeedsDigits(chars: string, pos: nat, n: nat, code: nat)
    ensures HexCode(chars, pos, n, code).Some? ==> pos + n <= |chars| || n == 0
    decreases n
  {
    if n > 0 && pos < |chars| && HexValue(chars[pos]).Some? {
      HexCodeNeedsDigits(chars, pos + 1, n - 1, code * 16 + HexValue(chars[pos]).value);
    }
  }

  /** The rest of a string's text from `pos`, and the position after its closing quote. */
  function StringRest(chars: string, pos: nat): (r: Option<(string, nat)>)
    ensures r.Some? ==> pos < r.value.1 <= |chars|
    decreases |chars| - pos
  {
    if pos >= |chars| then None
    else if chars[pos] == '"' then Some(("", pos + 1))
    else if chars[pos] == '\\' then
      match EscapeAt(chars, pos + 1)
      case None => None
      case Some((c, q)) => ConsItem(c, StringRest(chars, q))
    else if chars[pos] <= '\U{001F}' then None
    else ConsItem(chars[pos], StringRest(chars, pos + 1))
  }

  /** A string token at `pos`, from its opening quote. */
  function StringToken(chars: string, pos: nat): (r: Option<(string, nat)>)
    ensures r.Some? ==> pos < r.value.1 <= |chars|
  {
    if CharAt(chars, pos, '"') then StringRest(chars, pos + 1) else None
  }

  function ValueAt(chars: string, pos: nat): (r: Option<(JsonValue, nat)>)
    requires pos <= |chars|
    ensures r.Some? ==> pos < r.value.1 <= |chars|
    decreases |chars| - pos, 2
  {
    var p := SkipSpace(chars, pos);
    if p == |chars| then None
    else if chars[p] == '{' then ObjectAt(chars, p)
    else if chars[p] == '[' then ArrayAt(chars, p)
    else if chars[p] == '"' then
      match StringToken(chars, p)
      case None => None
      case Some((s, q)) => Some((Str(s), q))
    else if chars[p] == 't' then WordAt(chars, p, "true", Bool(true))
    else if chars[p] == 'f' then WordAt(chars, p, "false", Bool(false))
    else if chars[p] == 'n' then WordAt(chars, p, "null", Null)
    else if chars[p] == '-' || IsDigit(chars[p]) then
      match NumberEnd(chars, p)
      case None => None
      case Some(q) => Some((Num, q))
    else None
  }

  function WordAt(chars: string, pos: nat, word: string, value: JsonValue): Option<(JsonValue, nat)> {
    if At(chars, pos, word) then Some((value, pos + |word|)) else None
  }

  function ArrayAt(chars: string, pos: nat): (r: Option<(JsonValue, nat)>)
    requires pos < |chars|
    ensures r.Some? ==> pos < r.value.1 <= |chars|
    decreases |chars| - pos, 1
  {
    var p := SkipSpace(chars, pos + 1);
    if CharAt(chars, p, ']') then Some((Array([]), p + 1))
    else match ItemsAt(chars, p)
      case None => None
      case Some((items, q)) => Some((Array(items), q))
  }

  /** The items from `pos` on, and the position after the closing bracket. */
  function ItemsAt(chars: string, pos: nat): (r: Option<(seq<JsonValue>, nat)>)
    requires pos <= |chars|
    ensures r.Some? ==> pos < r.value.1 <= |chars|
    decreases |chars| - pos, 3
  {
    match ValueAt(chars, SkipSpace(chars, pos))
    case None => None
    case Some((v, q)) =>
      var p := SkipSpace(chars, q);
      if CharAt(chars, p, ',') then ConsItem(v, ItemsAt(chars, p + 1))
      else if CharAt(chars, p, ']') then Some(([v], p + 1))
      else None
  }

  function ConsItem<T>(v: T, rest: Option<(seq<T>, nat)>): Option<(seq<T>, nat)> {
    match rest
    case None => None
    case Some((items, q)) => Some(([v] + items, q))
  }

  function ObjectAt(chars: string, pos: nat): (r: Option<(JsonValue, nat)>)
    requires pos < |chars|
    ensures r.Some? ==> pos < r.value.1 <= |chars|
    decreases |chars| - pos, 1
  {
    var p := SkipSpace(chars, pos + 1);
    if CharAt(chars, p, '}') then Some((Object([]), p + 1))
    else match EntriesAt(chars, p)
      case None => None
      case Some((entries, q)) => Some((Object(entries), q))
  }

  /** One entry from `pos` on: its key, and its value after a colon. */
  function EntryAt(chars: string, pos: nat): (r: Option<((string, JsonValue), nat)>)
    requires pos <= |chars|
    ensures r.Some? ==> pos < r.value.1 <= |chars|
    decreases |chars| - pos, 3
  {
    match StringToken(chars, SkipSpace(chars, pos))
    case None => None
    case Some((key, k)) =>
      var c := SkipSpace(chars, k);
      if !CharAt(chars, c, ':') then None
      else match ValueAt(chars, c + 1)
        case None => None
        case Some((v, q)) => Some(((key, v), q))
  }

  /** The entries from `pos` on, and the position after the closing brace. */
  function EntriesAt(chars: string, pos: nat): (r: Option<(seq<(string, JsonValue)>, nat)>)
    requires pos <= |chars|
    ensures r.Some? ==> pos < r.value.1 <= |chars|
    decreases |chars| - pos, 4
  {
    match EntryAt(chars, pos)
    case None => None
    case Some((e, q)) =>
      var p := SkipSpace(chars, q);
      if CharAt(chars, p, ',') then ConsItem(e, EntriesAt(chars, p + 1))
      else if CharAt(chars, p, '}') then Some(([e], p + 1))
      else None
  }

  /** A whole document: one value with white space around it. */
  function ParseText(input: string): Option<JsonValue> {
    match ValueAt(input, SkipSpace(input, 0))
    case None => None
    case Some((v, q)) => if SkipSpace(input, q) == |input| then Some(v) else None
  }

  // ----- the parser

  class JsonParser {
    const chars: string
    var pos: nat

    ghost predicate Valid()
      reads this
    {
      pos <= |chars|
    }

    constructor (input: string)
      ensures Valid() && chars == input && pos == 0
    {
      chars := input;
      pos := 0;
    }

    function Peek(): (r: Option<char>)
      requires Valid()
      reads this
      ensures r.Some? <==> pos < |chars|
      ensures r.Some? ==> r.value == chars[pos]
    {
      if pos < |chars| then Some(chars[pos]) else None
    }

    method Bump() returns (r: Option<char>)
      requires Valid()
      modifies this
      ensures Valid() && r == old(Peek()) && pos == if r.Some? then old(pos) + 1 else old(pos)
    {
      r := Peek();
      if r.Some? { pos := pos + 1; }
    }

    method SkipWhitespace()
      requires Valid()
      modifies this
      ensures Valid() && pos == SkipSpace(chars, old(pos))
    {
      while pos < |chars| && IsSpace(chars[pos])
        invariant Valid() && SkipSpace(chars, pos) == SkipSpace(chars, old(pos))
        decreases |chars| - pos
      {
        pos := pos + 1;
      }
    }

    /** The parser moved from `start` to where the function says, or failed where it says so. */
    ghost predicate Agrees<T>(r: Option<T>, expected: Option<(T, nat)>)
      requires Valid()
      reads this
    {
      match expected
      case None => r == None
      case Some((v, q)) => r == Some(v) && pos == q
    }

    method ParseValue() returns (r: Option<JsonValue>)
      requires Valid()
      modifies this
      ensures Valid() && Agrees(r, ValueAt(chars, old(pos)))
      decreases |chars| - pos, 2
    {
      SkipWhitespace();
      match Peek()
      case None => r := None;
      case Some(c) =>
        if c == '{' {
          r := ParseObject();
        } else if c == '[' {
          r := ParseArray();
        } else if c == '"' {
          var s := ParseString();
          r := match s case None => None case Some(text) => Some(Str(text));
        } else if c == 't' {
          r := ParseKeyword("true", Bool(true));
        } else if c == 'f' {
          r := ParseKeyword("false", Bool(false));
        } else if c == 'n' {
          r := ParseKeyword("null", Null);
        } else if c == '-' || IsDigit(c) {
          r := ParseNumber();
        } else {
          r := None;
        }
    }

    method ParseKeyword(word: string, value: JsonValue) returns (r: Option<JsonValue>)
      requires Valid()
      modifies this
      ensures Valid() && Agrees(r, WordAt(chars, old(pos), word, value))
    {
      for i := 0 to |word|
        invariant Valid() && pos == old(pos) + i && chars[old(pos)..pos] == word[..i]
      {
        var c := Bump();
        if c != Some(word[i]) {
          if At(chars, old(pos), word) { AtChar(chars, old(pos), word, i); }
          return None;
        }
        SliceStep(chars, old(pos), pos - 1);
        PrefixStep(word, i);
      }
      return Some(value);
    }

    method SkipDigitRun()
      requires Valid()
      modifies this
      ensures Valid() && pos == SkipDigits(chars, old(pos))
    {
      while DigitAt(chars, pos)
        invariant Valid() && SkipDigits(chars, pos) == SkipDigits(chars, old(pos))
        decreases |chars| - pos
      {
        pos := pos + 1;
      }
    }

    /** The stages of `ParseNumber`. */
    method ParseInteger() returns (ok: bool)
      requires Valid()
      modifies this
      ensures Valid() && IntegerEnd(chars, old(pos)) == if ok then Some(pos) else None
    {
      if CharAt(chars, pos, '0') {
        pos := pos + 1;
        return !DigitAt(chars, pos);
      } else if DigitAt(chars, pos) {
        SkipDigitRun();
        return true;
      }
      return false;
    }

    method ParseFraction() returns (ok: bool)
      requires Valid()
      modifies this
      ensures Valid() && FractionEnd(chars, old(pos)) == if ok then Some(pos) else None
    {
      if CharAt(chars, pos, '.') {
        pos := pos + 1;
        if !DigitAt(chars, pos) { return false; }
        SkipDigitRun();
      }
      return true;
    }

    method ParseExponent() returns (ok: bool)
      requires Valid()
      modifies this
      ensures Valid() && ExponentEnd(chars, old(pos)) == if ok then Some(pos) else None
    {
      if CharAt(chars, pos, 'e') || CharAt(chars, pos, 'E') {
        pos := pos + 1;
        if CharAt(chars, pos, '+') || CharAt(chars, pos, '-') { pos := pos + 1; }
        if !DigitAt(chars, pos) { return false; }
        SkipDigitRun();
      }
      return true;
    }

    method ParseNumber() returns (r: Option<JsonValue>)
      requires Valid()
      modifies this
      ensures Valid()
      ensures match NumberEnd(chars, old(pos))
              case None => r == None
              case Some(q) => r == Some(Num) && pos == q
    {
      hide IntegerEnd, FractionEnd, ExponentEnd;
      if CharAt(chars, pos, '-') { pos := pos + 1; }
      var ok := ParseInteger();
      if ok { ok := ParseFraction(); }
      if ok { ok := ParseExponent(); }
      return if ok then Some(Num) else None;
    }

    method ParseString() returns (r: Option<string>)
      requires Valid()
      modifies this
      ensures Valid() && Agrees(r, StringToken(chars, old(pos)))
    {
      var open := Bump();
      if open != Some('"') { return None; }
      var text := "";
      var start := pos;
      PrependNothing(StringRest(chars, start));
      while true
        invariant Valid()
        invariant StringRest(chars, start) == PrependItems(text, StringRest(chars, pos))
        decreases |chars| - pos
      {
        var c := Bump();
        if c == None {
          return None;
        } else if c == Some('"') {
          assert text + "" == text;
          return Some(text);
        } else if c == Some('\\') {
          var e := ParseEscape();
          if e == None { return None; }
          PrependOne(text, e.value, StringRest(chars, pos));
          text := text + [e.value];
        } else if c.value <= '\U{001F}' {
          return None;
        } else {
          PrependOne(text, c.value, StringRest(chars, pos));
          text := text + [c.value];
        }
      }
    }

    method ParseEscape() returns (r: Option<char>)
      requires Valid()
      modifies this
      ensures Valid() && Agrees(r, EscapeAt(chars, old(pos))) && pos >= old(pos)
    {
      var c := Bump();
      if c == None { return None; }
      if c == Some('u') {
        var code: nat := 0;
        for i := 0 to 4
          invariant i <= 4 && Valid() && pos == old(pos) + 1 + i
          invariant HexCode(chars, old(pos) + 1, 4, 0) == HexCode(chars, pos, 4 - i, code)
        {
          var d := Bump();
          if d == None { return None; }
          var digit := HexValue(d.value);
          if digit == None { return None; }
          code := code * 16 + digit.value;
        }
        return Scalar(code);
      }
      return SimpleEscape(c.value);
    }

    method ParseArray() returns (r: Option<JsonValue>)
      requires Valid() && CharAt(chars, pos, '[')
      modifies this
      ensures Valid() && Agrees(r, ArrayAt(chars, old(pos)))
      decreases |chars| - pos, 1
    {
      hide ValueAt, SkipSpace, ObjectAt, EntriesAt;
      var open := Bump();
      var items := [];
      SkipWhitespace();
      if Peek() == Some(']') {
        pos := pos + 1;
        return Some(Array(items));
      }
      var start := pos;
      PrependNothing(ItemsAt(chars, start));
      while true
        invariant Valid() && old(pos) < pos
        invariant ItemsAt(chars, start) == PrependItems(items, ItemsAt(chars, pos))
        decreases |chars| - pos
      {
        SkipWhitespace();
        var v := ParseValue();
        if v == None { return None; }
        SkipWhitespace();
        var separator := Bump();
        if separator == Some(',') {
          PrependOne(items, v.value, ItemsAt(chars, pos));
          items := items + [v.value];
        } else if separator == Some(']') {
          return Some(Array(items + [v.value]));
        } else {
          return None;
        }
      }
    }

    /** One turn of the loop of `ParseObject`, up to the entry's value. */
    method ParseEntry() returns (r: Option<(string, JsonValue)>)
      requires Valid()
      modifies this
      ensures Valid() && Agrees(r, EntryAt(chars, old(pos)))
      decreases |chars| - pos, 3
    {
      hide ValueAt, StringRest;
      SkipWhitespace();
      if Peek() != Some('"') { return None; }
      var key := ParseString();
      if key == None { return None; }
      SkipWhitespace();
      var colon := Bump();
      if colon != Some(':') { return None; }
      var v := ParseValue();
      if v == None { return None; }
      return Some((key.value, v.value));
    }

    method ParseObject() returns (r: Option<JsonValue>)
      requires Valid() && CharAt(chars, pos, '{')
      modifies this
      ensures Valid() && Agrees(r, ObjectAt(chars, old(pos)))
      decreases |chars| - pos, 1
    {
      hide EntryAt, SkipSpace;
      var open := Bump();
      var entries := [];
      SkipWhitespace();
      if Peek() == Some('}') {
        pos := pos + 1;
        return Some(Object(entries));
      }
      var start := pos;
      PrependNothing(EntriesAt(chars, start));
      while true
        invariant Valid() && old(pos) < pos
        invariant EntriesAt(chars, start) == PrependItems(entries, EntriesAt(chars, pos))
        decreases |chars| - pos
      {
        var e := ParseEntry();
        if e == None { return None; }
        SkipWhitespace();
        var separator := Bump();
        if separator == Some(',') {
          PrependOne(entries, e.value, EntriesAt(chars, pos));
          entries := entries + [e.value];
        } else if separator == Some('}') {
          return Some(Object(entries + [e.value]));
        } else {
          return None;
        }
      }
    }
  }

  function PrependItems<T>(items: seq<T>, rest: Option<(seq<T>, nat)>): Option<(seq<T>, nat)> {
    match rest
    case None => None
    case Some((more, q)) => Some((items + more, q))
  }

  lemma PrependNothing<T>(rest: Option<(seq<T>, nat)>)
    ensures PrependItems([], rest) == rest
  {
    if rest.Some? { assert [] + rest.value.0 == rest.value.0; }
  }

  lemma PrependOne<T>(items: seq<T>, x: T, rest: Option<(seq<T>, nat)>)
    ensures PrependItems(items, ConsItem(x, rest)) == PrependItems(items + [x], rest)
  {
    if rest.Some? { assert items + ([x] + rest.value.0) == (items + [x]) + rest.value.0; }
  }

  /** `JsonParser::parse`: one value and nothing but white space after it. */
  method Parse(input: string) returns (r: Option<JsonValue>)
    ensures r == ParseText(input)
  {
    var parser := new JsonParser(input);
    parser.SkipWhitespace();
    var value := parser.ParseValue();
    if value == None { return None; }
    parser.SkipWhitespace();
    r := if parser.pos == |parser.chars| then value else None;
  }
}
