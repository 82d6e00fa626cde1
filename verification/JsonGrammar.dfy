/**
 The grammar of RFC 8259 as derivation trees, written out by code points and without any definition of the parser: a
 tree renders to text and has at most one meaning.
 */
module JsonGrammar {
  import opened Wrappers
  import opened JsonValues

  // ----- derivation trees (sections 2 to 7 of RFC 8259)

  /** A character of a string: written as is, as a two-character escape, or as `\u` and four hex digits. */
  datatype Chr = Verbatim(c: char) | Short(c: char) | Unicode(digits: string)

  datatype Exponent = Exponent(mark: char, sign: string, digits: string)

  datatype Number = Number(minus: bool, integer: string, fraction: Option<string>, exponent: Option<Exponent>)

  datatype Tree =
    | TNull
    | TBool(flag: bool)
    | TNumber(number: Number)
    | TString(chars: seq<Chr>)
    | TArray(space: string, items: seq<Item>)
    | TObject(space: string, entries: seq<Entry>)

  /** A value with the white space before and after it. */
  datatype Item = Item(before: string, value: Tree, after: string)

  /** A name, a colon and a value, with the white space around each. */
  datatype Entry = Entry(
    before: string, name: seq<Chr>, afterName: string, beforeValue: string, value: Tree, after: string)

  // ----- characters, by code point

  /** Section 2: space, horizontal tab, line feed, carriage return. */
  predicate IsWhite(c: char) {
    c as int in {0x20, 0x09, 0x0A, 0x0D}
  }

  /** Section 6: the ten digits. */
  predicate IsDecimal(c: char) {
    0x30 <= c as int <= 0x39
  }

  /** Section 7: a hexadecimal digit in either case, and its value. */
  function HexDigitOf(c: char): Option<nat> {
    var n := c as int;
    if 0x30 <= n <= 0x39 then Some(n - 0x30)
    else if 0x41 <= n <= 0x46 then Some(n - 0x37)
    else if 0x61 <= n <= 0x66 then Some(n - 0x57)
    else None
  }

  /** Section 7: the letters of the two-character escapes and the characters they stand for. */
  const ESCAPES: map<int, int> := map[
    0x22 := 0x22, 0x5C := 0x5C, 0x2F := 0x2F, 0x62 := 0x08, 0x66 := 0x0C, 0x6E := 0x0A, 0x72 := 0x0D, 0x74 := 0x09]

  predicate IsSurrogate(code: nat) {
    0xD800 <= code <= 0xDFFF
  }

  // ----- which trees are derivations

  predicate Space(s: string) {
    forall i :: 0 <= i < |s| ==> IsWhite(s[i])
  }

  predicate AllDigits(s: string) {
    |s| > 0 && forall i :: 0 <= i < |s| ==> IsDecimal(s[i])
  }

  predicate IsChr(c: Chr) {
    match c
    case Verbatim(v) => v as int >= 0x20 && v as int != 0x22 && v as int != 0x5C
    case Short(e) => e as int in ESCAPES
    case Unicode(d) => |d| == 4 && forall i :: 0 <= i < 4 ==> HexDigitOf(d[i]).Some?
  }

  predicate IsString(s: seq<Chr>) {
    forall i :: 0 <= i < |s| ==> IsChr(s[i])
  }

  predicate IsNumber(n: Number) {
    && AllDigits(n.integer) && (n.integer[0] == '0' ==> |n.integer| == 1)
    && (n.fraction.Some? ==> AllDigits(n.fraction.value))
    && (n.exponent.Some? ==> IsExponent(n.exponent.value))
  }

  predicate IsExponent(e: Exponent) {
    && (e.mark == 'e' || e.mark == 'E') && (e.sign == "" || e.sign == "+" || e.sign == "-")
    && AllDigits(e.digits)
  }

  predicate IsTree(t: Tree)
    decreases t, 0
  {
    match t
    case TNumber(n) => IsNumber(n)
    case TString(s) => IsString(s)
    case TArray(space, items) => Space(space) && IsItems(items)
    case TObject(space, entries) => Space(space) && IsEntries(entries)
    case _ => true
  }

  predicate IsItems(items: seq<Item>)
    decreases items, 0
  {
    |items| == 0 || (IsItem(items[0]) && IsItems(items[1..]))
  }

  predicate IsItem(item: Item)
    decreases item, 1
  {
    Space(item.before) && IsTree(item.value) && Space(item.after)
  }

  predicate IsEntries(entries: seq<Entry>)
    decreases entries, 0
  {
    |entries| == 0 || (IsEntry(entries[0]) && IsEntries(entries[1..]))
  }

  predicate IsEntry(e: Entry)
    decreases e, 1
  {
    && Space(e.before) && IsString(e.name) && Space(e.afterName) && Space(e.beforeValue) && IsTree(e.value)
    && Space(e.after)
  }

  // ----- the text of a tree

  function ChrText(c: Chr): string {
    match c
    case Verbatim(v) => [v]
    case Short(e) => ['\\', e]
    case Unicode(d) => "\\u" + d
  }

  function ChrsText(s: seq<Chr>): string {
    if |s| == 0 then "" else ChrText(s[0]) + ChrsText(s[1..])
  }

  function StringText(s: seq<Chr>): string {
    "\"" + (ChrsText(s) + "\"")
  }

  function FractionText(f: Option<string>): string {
    match f
    case None => ""
    case Some(d) => "." + d
  }

  function ExponentText(e: Option<Exponent>): string {
    match e
    case None => ""
    case Some(x) => [x.mark] + (x.sign + x.digits)
  }

  function NumberText(n: Number): string {
    (if n.minus then "-" else "") + (n.integer + (FractionText(n.fraction) + ExponentText(n.exponent)))
  }

  function TreeText(t: Tree): string
    decreases t, 0
  {
    match t
    case TNull => "null"
    case TBool(flag) => if flag then "true" else "false"
    case TNumber(n) => NumberText(n)
    case TString(s) => StringText(s)
    case TArray(space, items) => "[" + (if |items| == 0 then space + "]" else ItemsText(items))
    case TObject(space, entries) => "{" + (if |entries| == 0 then space + "}" else EntriesText(entries))
  }

  /** Items with a comma after each but the last, and the closing bracket after the last. */
  function ItemsText(items: seq<Item>): string
    requires |items| > 0
    decreases items, 0
  {
    ItemText(items[0]) + (if |items| == 1 then "]" else "," + ItemsText(items[1..]))
  }

  function ItemText(item: Item): string
    decreases item, 1
  {
    item.before + (TreeText(item.value) + item.after)
  }

  function EntriesText(entries: seq<Entry>): string
    requires |entries| > 0
    decreases entries, 0
  {
    EntryText(entries[0]) + (if |entries| == 1 then "}" else "," + EntriesText(entries[1..]))
  }

  function EntryText(e: Entry): string
    decreases e, 1
  {
    e.before + (StringText(e.name) + (e.afterName + (":" + (e.beforeValue + (TreeText(e.value) + e.after)))))
  }

  // ----- the meaning of a tree

  function HexNumber(digits: string, code: nat): Option<nat> {
    if |digits| == 0 then Some(code)
    else match HexDigitOf(digits[0])
      case None => None
      case Some(d) => HexNumber(digits[1..], code * 16 + d)
  }

  /** The character a string element denotes; a `\u` escape that names a surrogate denotes none. */
  function ChrMeaning(c: Chr): Option<char> {
    match c
    case Verbatim(v) => Some(v)
    case Short(e) => if e as int in ESCAPES then Some(ESCAPES[e as int] as char) else None
    case Unicode(d) =>
      match HexNumber(d, 0)
      case None => None
      case Some(code) => if IsSurrogate(code) || code >= 0x11_0000 then None else Some(code as char)
  }

  function StringMeaning(s: seq<Chr>): Option<string> {
    if |s| == 0 then Some("")
    else match ChrMeaning(s[0])
      case None => None
      case Some(c) =>
        match StringMeaning(s[1..])
        case None => None
        case Some(rest) => Some([c] + rest)
  }

  function Meaning(t: Tree): Option<JsonValue>
    decreases t, 0
  {
    match t
    case TNull => Some(Null)
    case TBool(flag) => Some(Bool(flag))
    case TNumber(_) => Some(Num)
    case TString(s) =>
      (match StringMeaning(s)
       case None => None
       case Some(text) => Some(Str(text)))
    case TArray(_, items) =>
      (match ItemsMeaning(items)
       case None => None
       case Some(values) => Some(Array(values)))
    case TObject(_, entries) =>
      (match EntriesMeaning(entries)
       case None => None
       case Some(values) => Some(Object(values)))
  }

  function ItemsMeaning(items: seq<Item>): Option<seq<JsonValue>>
    decreases items, 0
  {
    if |items| == 0 then Some([])
    else match ItemMeaning(items[0])
      case None => None
      case Some(v) =>
        match ItemsMeaning(items[1..])
        case None => None
        case Some(rest) => Some([v] + rest)
  }

  function ItemMeaning(item: Item): Option<JsonValue>
    decreases item, 1
  {
    Meaning(item.value)
  }

  function EntriesMeaning(entries: seq<Entry>): Option<seq<(string, JsonValue)>>
    decreases entries, 0
  {
    if |entries| == 0 then Some([])
    else match EntryMeaning(entries[0])
      case None => None
      case Some(v) =>
        match EntriesMeaning(entries[1..])
        case None => None
        case Some(rest) => Some([v] + rest)
  }

  function EntryMeaning(e: Entry): Option<(string, JsonValue)>
    decreases e, 1
  {
    match StringMeaning(e.name)
    case None => None
    case Some(name) =>
      match Meaning(e.value)
      case None => None
      case Some(v) => Some((name, v))
  }
}
