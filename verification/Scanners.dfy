/**
 The raw-text scanners the verifier reads a signed document with (src/signed_json.rs). Each loop of the
 program is a method proved equal to a function of the text, and the theorems speak about those functions.
 */
module Scanners {
  import opened Wrappers
  import opened Texts
  import opened CanonicalJson

  /** Scans a string's content from `j`: the position of its closing quote. */
  function StringEnd(text: string, j: nat, escaped: bool): (r: Option<nat>)
    ensures r.Some? ==> j <= r.value < |text| && text[r.value] == '"'
    decreases |text| - j
  {
    if j >= |text| then None
    else if escaped then StringEnd(text, j + 1, false)
    else if text[j] == '\\' then StringEnd(text, j + 1, true)
    else if text[j] == '"' then Some(j)
    else StringEnd(text, j + 1, false)
  }

  /** The raw content of the string at `start`, and the position of its closing quote. */
  function StringAt(text: string, start: nat): (r: Option<(string, nat)>)
    ensures r.Some? ==> At(text, start + 1, r.value.0) && r.value.1 == start + 1 + |r.value.0| < |text|
  {
    if start >= |text| || text[start] != '"' then None
    else match StringEnd(text, start + 1, false)
      case None => None
      case Some(end) => Some((text[start + 1..end], end))
  }

  method CompactStringAt(document: string, start: nat) returns (r: Option<(string, nat)>)
    ensures r == StringAt(document, start)
  {
    if start >= |document| || document[start] != '"' { return None; }
    var escaped := false;
    for j := start + 1 to |document|
      invariant StringEnd(document, start + 1, false) == StringEnd(document, j, escaped)
    {
      var ch := document[j];
      if escaped {
        escaped := false;
      } else if ch == '\\' {
        escaped := true;
      } else if ch == '"' {
        return Some((document[start + 1..j], j));
      }
    }
    return None;
  }

  /** Where the container whose scan has reached `j` at nesting `depth` closes. */
  function ContainerEnd(text: string, j: nat, depth: nat, inString: bool, escaped: bool): (r: Option<nat>)
    ensures r.Some? ==> j <= r.value < |text|
    decreases |text| - j
  {
    if j >= |text| then None
    else if inString then
      if escaped then ContainerEnd(text, j + 1, depth, true, false)
      else if text[j] == '\\' then ContainerEnd(text, j + 1, depth, true, true)
      else ContainerEnd(text, j + 1, depth, text[j] != '"', false)
    else if text[j] == '"' then ContainerEnd(text, j + 1, depth, true, escaped)
    else if text[j] == '{' || text[j] == '[' then ContainerEnd(text, j + 1, depth + 1, false, escaped)
    else if text[j] == '}' || text[j] == ']' then
      if depth == 0 then None
      else if depth == 1 then Some(j)
      else ContainerEnd(text, j + 1, depth - 1, false, escaped)
    else ContainerEnd(text, j + 1, depth, false, escaped)
  }

  method CompactContainerEnd(document: string, start: nat) returns (r: Option<nat>)
    ensures r == ContainerEnd(document, start, 0, false, false)
  {
    var depth: nat, inString, escaped := 0, false, false;
    var j := start;
    while j < |document|
      invariant ContainerEnd(document, start, 0, false, false)
             == ContainerEnd(document, j, depth, inString, escaped)
    {
      var ch := document[j];
      if inString {
        if escaped {
          escaped := false;
        } else if ch == '\\' {
          escaped := true;
        } else if ch == '"' {
          inString := false;
        }
      } else if ch == '"' {
        inString := true;
      } else if ch == '{' || ch == '[' {
        depth := depth + 1;
      } else if ch == '}' || ch == ']' {
        if depth == 0 { return None; }
        depth := depth - 1;
        if depth == 0 { return Some(j); }
      }
      j := j + 1;
    }
    return None;
  }

  predicate IsDelimiter(c: char) {
    c == ',' || c == '}' || c == ']'
  }

  /** Number of characters from `j` up to the next delimiter or the end of the text. */
  function ScalarLength(text: string, j: nat): (n: nat)
    ensures j <= |text| ==> j + n <= |text|
    decreases |text| - j
  {
    if j >= |text| || IsDelimiter(text[j]) then 0 else 1 + ScalarLength(text, j + 1)
  }

  /** The position of the last character of the compact value at `start`. */
  function ValueEnd(text: string, start: nat): (r: Option<nat>)
    ensures r.Some? ==> start <= r.value < |text|
  {
    if start >= |text| then None
    else if text[start] == '{' || text[start] == '[' then ContainerEnd(text, start, 0, false, false)
    else if text[start] == '"' then
      match StringAt(text, start)
      case None => None
      case Some(s) => Some(s.1)
    else
      var n := ScalarLength(text, start);
      if n > 0 then Some(start + n - 1) else None
  }

  method CompactValueEnd(document: string, start: nat) returns (r: Option<nat>)
    ensures r == ValueEnd(document, start)
  {
    if start >= |document| { return None; }
    if document[start] == '{' || document[start] == '[' {
      r := CompactContainerEnd(document, start);
    } else if document[start] == '"' {
      var s := CompactStringAt(document, start);
      r := match s case None => None case Some(v) => Some(v.1);
    } else {
      var n := ScalarLength(document, start);
      r := if n > 0 then Some(start + n - 1) else None;
    }
  }

  /** First and last position of the value of the first direct member named `key`, scanning from `cursor`. */
  function MemberSpan(block: string, cursor: nat, key: string): (r: Option<(nat, nat)>)
    ensures r.Some? ==> cursor <= r.value.0 <= r.value.1 < |block|
    ensures r.Some? ==> ValueEnd(block, r.value.0) == Some(r.value.1)
    decreases |block| - cursor
  {
    if cursor >= |block| then None
    else if block[cursor] == ',' then MemberSpan(block, cursor + 1, key)
    else match StringAt(block, cursor)
      case None => None
      case Some(s) =>
        if s.1 + 1 >= |block| || block[s.1 + 1] != ':' then None
        else match ValueEnd(block, s.1 + 2)
          case None => None
          case Some(end) =>
            if s.0 == key then Some((s.1 + 2, end)) else MemberSpan(block, end + 1, key)
  }

  lemma MemberSpanStep(block: string, cursor: nat, key: string)
    requires cursor < |block| && block[cursor] != ','
    ensures MemberSpan(block, cursor, key)
         == match StringAt(block, cursor)
            case None => None
            case Some(s) =>
              if s.1 + 1 >= |block| || block[s.1 + 1] != ':' then None
              else match ValueEnd(block, s.1 + 2)
                case None => None
                case Some(end) => if s.0 == key then Some((s.1 + 2, end)) else MemberSpan(block, end + 1, key)
  {
  }

  lemma MemberSpanSkips(block: string, cursor: nat, key: string)
    requires cursor < |block| && block[cursor] == ','
    ensures MemberSpan(block, cursor, key) == MemberSpan(block, cursor + 1, key)
  {
  }

  lemma NoMemberAtEnd(block: string, cursor: nat, key: string)
    requires cursor >= |block|
    ensures MemberSpan(block, cursor, key) == None
  {
  }

  /** The direct string member `key` of a compact object. */
  function StringMember(block: string, key: string): Option<string> {
    if |block| == 0 || block[0] != '{' then None
    else match MemberSpan(block, 1, key)
      case None => None
      case Some(span) =>
        match StringAt(block, span.0)
        case None => None
        case Some(s) => if s.1 == span.1 then Some(s.0) else None
  }

  method CompactObjectStringMember(block: string, memberKey: string) returns (r: Option<string>)
    ensures r == StringMember(block, memberKey)
  {
    hide ValueEnd, StringAt, ParseDigits, MemberSpan;
    if |block| == 0 || block[0] != '{' { return None; }
    var cursor := 1;
    while cursor < |block|
      invariant MemberSpan(block, 1, memberKey) == MemberSpan(block, cursor, memberKey)
    {
      if block[cursor] == ',' {
        MemberSpanSkips(block, cursor, memberKey);
        cursor := cursor + 1;
        continue;
      }
      MemberSpanStep(block, cursor, memberKey);
      var name := CompactStringAt(block, cursor);
      if name.None? { return None; }
      var (key, keyEnd) := name.value;
      if keyEnd + 1 >= |block| || block[keyEnd + 1] != ':' { return None; }
      var valueStart := keyEnd + 2;
      var end := CompactValueEnd(block, valueStart);
      if end.None? { return None; }
      if key == memberKey {
        var value := CompactStringAt(block, valueStart);
        if value.None? { return None; }
        return if value.value.1 == end.value then Some(value.value.0) else None;
      }
      cursor := end.value + 1;
    }
    NoMemberAtEnd(block, cursor, memberKey);
    return None;
  }

  const INT64_MAX: nat := 0x7fff_ffff_ffff_ffff

  /** `str::parse::<i64>` on a nonempty run of decimal digits. */
  function ParseDigits(token: string): (r: Option<Int64>)
  {
    if |token| > 0 && (forall i :: 0 <= i < |token| ==> IsDigit(token[i])) && NatValue(token) <= INT64_MAX
    then Some(NatValue(token))
    else None
  }

  /** The direct integer member `key` of a compact object: an unquoted run of decimal digits. */
  function IntMember(block: string, key: string): Option<Int64> {
    if |block| == 0 || block[0] != '{' then None
    else match MemberSpan(block, 1, key)
      case None => None
      case Some(span) => ParseDigits(block[span.0..span.1 + 1])
  }

  method CompactObjectIntMember(block: string, memberKey: string) returns (r: Option<Int64>)
    ensures r == IntMember(block, memberKey)
  {
    hide ValueEnd, StringAt, ParseDigits, MemberSpan;
    if |block| == 0 || block[0] != '{' { return None; }
    var cursor := 1;
    while cursor < |block|
      invariant MemberSpan(block, 1, memberKey) == MemberSpan(block, cursor, memberKey)
    {
      if block[cursor] == ',' {
        MemberSpanSkips(block, cursor, memberKey);
        cursor := cursor + 1;
        continue;
      }
      MemberSpanStep(block, cursor, memberKey);
      var name := CompactStringAt(block, cursor);
      if name.None? { return None; }
      var (key, keyEnd) := name.value;
      if keyEnd + 1 >= |block| || block[keyEnd + 1] != ':' { return None; }
      var end := CompactValueEnd(block, keyEnd + 2);
      if end.None? { return None; }
      if key == memberKey {
        return ParseDigits(block[keyEnd + 2..end.value + 1]);
      }
      cursor := end.value + 1;
    }
    NoMemberAtEnd(block, cursor, memberKey);
    return None;
  }

  /** The text of the first object written as the value of `key`, wherever in `text` it stands. */
  function ObjectMember(text: string, key: string): Option<string> {
    var anchor := "\"" + (key + "\":{");
    match Find(text, anchor, 0)
    case None => None
    case Some(p) =>
      var start := p + |anchor| - 1;
      match ValueEnd(text, start)
      case None => None
      case Some(end) => Some(text[start..end + 1])
  }
}
