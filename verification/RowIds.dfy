/** The length-prefixed row ids of the local database (src/local_db.rs). Lengths count UTF-8 bytes. */
module RowIds {
  import opened Wrappers
  import opened Texts

  const USIZE_MAX: nat := 0xffff_ffff_ffff_ffff
  const ISIZE_MAX: nat := 0x7fff_ffff_ffff_ffff

  /** Number of bytes of a character in UTF-8. */
  function Width(c: char): (n: nat)
    ensures 1 <= n <= 4
  {
    if c as int < 0x80 then 1 else if c as int < 0x800 then 2 else if c as int < 0x1_0000 then 3 else 4
  }

  function ByteLen(s: string): nat {
    if |s| == 0 then 0 else Width(s[0]) + ByteLen(s[1..])
  }

  /** Strings that fit in memory: no allocation is longer than `isize::MAX` bytes. */
  type Text = s: string | ByteLen(s) <= ISIZE_MAX

  // ----- encoders

  /** A field behind its length, and the separator after it. */
  function Field(s: string): string {
    Digits(ByteLen(s)) + (":" + (s + ":"))
  }

  /** A field behind its length, at the end of an id. */
  function LastField(s: string): string {
    Digits(ByteLen(s)) + (":" + s)
  }

  function ControlResultRowId(run: string, framework: string, control: string, rule: string): string {
    Field(run) + (Field(framework) + (Field(control) + rule))
  }

  function ComplianceGapRowId(run: string, framework: string, control: string, rule: string): string {
    Field(run) + (Field(framework) + (Field(control) + LastField(rule)))
  }

  function LegacyGapRowId(framework: string, control: string, rule: string): string {
    Field(framework) + (Field(control) + rule)
  }

  function ScoreSummaryRowId(run: string, framework: string): string {
    Field(run) + LastField(framework)
  }

  // ----- decoders

  /** `str::split_once(':')`. */
  function SplitOnce(s: string): (r: Option<(string, string)>)
    ensures r.Some? ==> s == r.value.0 + (":" + r.value.1)
  {
    if |s| == 0 then None
    else if s[0] == ':' then Some(("", s[1..]))
    else match SplitOnce(s[1..])
      case None => None
      case Some((a, b)) => Some(([s[0]] + a, b))
  }

  /** `str::parse::<usize>`: digits with an optional plus sign, unless the number is too large. */
  function ParseUsize(s: string): Option<nat> {
    var digits := if |s| > 1 && s[0] == '+' then s[1..] else s;
    if |digits| > 0 && (forall i :: 0 <= i < |digits| ==> IsDigit(digits[i])) && NatValue(digits) <= USIZE_MAX
    then Some(NatValue(digits))
    else None
  }

  /** `str::get(..n)`: how many characters make up the first `n` bytes, if `n` is a character boundary. */
  function Boundary(s: string, n: nat): (r: Option<nat>)
    ensures r.Some? ==> r.value <= |s|
  {
    if n == 0 then Some(0)
    else if |s| == 0 || Width(s[0]) > n then None
    else match Boundary(s[1..], n - Width(s[0]))
      case None => None
      case Some(k) => Some(k + 1)
  }

  function TakeLengthPrefixedField(input: string): Option<(string, string)> {
    match SplitOnce(input)
    case None => None
    case Some((prefix, remainder)) =>
      match ParseUsize(prefix)
      case None => None
      case Some(length) =>
        match Boundary(remainder, length)
        case None => None
        case Some(k) =>
          if k < |remainder| && remainder[k] == ':' then Some((remainder[..k], remainder[k + 1..])) else None
  }

  type Identity = (string, string, string, string)

  function ControlResultIdentity(rowId: string): Option<Identity> {
    match TakeLengthPrefixedField(rowId)
    case None => None
    case Some((run, afterRun)) =>
      match TakeLengthPrefixedField(afterRun)
      case None => None
      case Some((framework, afterFramework)) =>
        match TakeLengthPrefixedField(afterFramework)
        case None => None
        case Some((control, rule)) =>
          if run != "" && control != "" && rule != "" then Some((run, framework, control, rule)) else None
  }

  function ComplianceGapIdentity(rowId: string): Option<Identity> {
    match TakeLengthPrefixedField(rowId)
    case None => None
    case Some((run, afterRun)) =>
      match TakeLengthPrefixedField(afterRun)
      case None => None
      case Some((framework, afterFramework)) =>
        match TakeLengthPrefixedField(afterFramework)
        case None => None
        case Some((control, afterControl)) =>
          match SplitOnce(afterControl)
          case None => None
          case Some((prefix, rule)) =>
            match ParseUsize(prefix)
            case None => None
            case Some(length) =>
              if run != "" && control != "" && rule != "" && ByteLen(rule) == length
              then Some((run, framework, control, rule)) else None
  }

  // ----- decoding undoes encoding

  lemma {:induction false} SplitsAtFirstColon(a: string, b: string)
    requires forall i :: 0 <= i < |a| ==> a[i] != ':'
    ensures SplitOnce(a + (":" + b)) == Some((a, b))
  {
    var s := a + (":" + b);
    if |a| == 0 {
      assert s[1..] == b;
    } else {
      assert s[1..] == a[1..] + (":" + b);
      SplitsAtFirstColon(a[1..], b);
      assert [a[0]] + a[1..] == a;
    }
  }

  lemma {:induction false} BoundaryAfter(s: string, rest: string)
    ensures Boundary(s + rest, ByteLen(s)) == Some(|s|)
  {
    if |s| > 0 {
      assert (s + rest)[1..] == s[1..] + rest && (s + rest)[0] == s[0];
      BoundaryAfter(s[1..], rest);
    }
  }

  lemma ParsesDigits(n: nat)
    requires n <= USIZE_MAX
    ensures ParseUsize(Digits(n)) == Some(n)
  {
    DigitsValue(n);
  }

  /** Lengths are read up to the greatest number of 64 bits. */
  lemma LengthsAreRead(n: nat)
    ensures ParseUsize(Digits(n)) == if n < 0x1_0000_0000_0000_0000 then Some(n) else None
  {
    DigitsValue(n);
  }

  lemma TakesField(s: Text, rest: string)
    ensures TakeLengthPrefixedField(Field(s) + rest) == Some((s, rest))
  {
    hide ByteLen, Digits;
    var d, tail := Digits(ByteLen(s)), s + (":" + rest);
    assert Field(s) + rest == d + (":" + tail);
    DigitsHaveNoColon(ByteLen(s));
    SplitsAtFirstColon(d, tail);
    ParsesDigits(ByteLen(s));
    BoundaryAfter(s, ":" + rest);
    assert tail[..|s|] == s && tail[|s| + 1..] == rest;
  }

  lemma DigitsHaveNoColon(n: nat)
    ensures forall i :: 0 <= i < |Digits(n)| ==> Digits(n)[i] != ':' && IsDigit(Digits(n)[i])
  {
  }

  /** A summary id says the length of each of its two fields before the field. */
  lemma ScoreSummaryRowIdReads(run: Text, framework: Text)
    ensures match TakeLengthPrefixedField(ScoreSummaryRowId(run, framework) + ":")
            case None => false
            case Some((first, rest)) => first == run && TakeLengthPrefixedField(rest) == Some((framework, ""))
  {
    hide TakeLengthPrefixedField, ByteLen, Digits;
    TakesField(run, LastField(framework) + ":");
    TakesField(framework, "");
    assert LastField(framework) + ":" == Field(framework) + "";
    assert ScoreSummaryRowId(run, framework) + ":" == Field(run) + (LastField(framework) + ":");
  }

  /** A result id decodes to its components, for any content, unless the run, control or rule is empty. */
  lemma ControlResultIdDecodes(run: Text, framework: Text, control: Text, rule: Text)
    ensures ControlResultIdentity(ControlResultRowId(run, framework, control, rule))
         == if run != "" && control != "" && rule != "" then Some((run, framework, control, rule)) else None
  {
    hide TakeLengthPrefixedField, Field;
    TakesField(run, Field(framework) + (Field(control) + rule));
    TakesField(framework, Field(control) + rule);
    TakesField(control, rule);
  }

  /** The same for gap ids, whose rule carries its length too. */
  lemma ComplianceGapIdDecodes(run: Text, framework: Text, control: Text, rule: Text)
    ensures ComplianceGapIdentity(ComplianceGapRowId(run, framework, control, rule))
         == if run != "" && control != "" && rule != "" then Some((run, framework, control, rule)) else None
  {
    hide TakeLengthPrefixedField, Field, ParseUsize, Digits, ByteLen;
    TakesField(run, Field(framework) + (Field(control) + LastField(rule)));
    TakesField(framework, Field(control) + LastField(rule));
    TakesField(control, LastField(rule));
    DigitsHaveNoColon(ByteLen(rule));
    SplitsAtFirstColon(Digits(ByteLen(rule)), rule);
    ParsesDigits(ByteLen(rule));
  }

  // ----- when encoding undoes decoding

  /** How `usize` prints: digits only, without leading zeros. */
  predicate PlainNumber(p: string) {
    |p| > 0 && (forall i :: 0 <= i < |p| ==> IsDigit(p[i])) && (|p| > 1 ==> p[0] != '0')
  }

  lemma {:induction false} PlainNumberIsPrinted(p: string)
    requires PlainNumber(p)
    ensures p == Digits(NatValue(p)) && (p[0] != '0' ==> NatValue(p) > 0)
    decreases p
  {
    var init, last := p[..|p| - 1], p[|p| - 1];
    assert p == init + [last];
    if |p| > 1 {
      PlainNumberIsPrinted(init);
      assert NatValue(p) / 10 == NatValue(init) && NatValue(p) % 10 == DigitValue(last);
    }
  }

  /** The text before the first colon: the length of the first field as it is written. */
  function Prefix(input: string): string {
    match SplitOnce(input)
    case None => ""
    case Some((prefix, remainder)) => prefix
  }

  lemma {:induction false} BoundaryMeasures(s: string, n: nat)
    requires Boundary(s, n).Some?
    ensures ByteLen(s[..Boundary(s, n).value]) == n
  {
    if n > 0 {
      var k := Boundary(s[1..], n - Width(s[0])).value;
      BoundaryMeasures(s[1..], n - Width(s[0]));
      assert s[..k + 1][1..] == s[1..][..k];
    }
  }

  lemma {:induction false} NoColonBefore(s: string)
    requires SplitOnce(s).Some?
    ensures forall i :: 0 <= i < |SplitOnce(s).value.0| ==> SplitOnce(s).value.0[i] != ':'
  {
    if s[0] != ':' { NoColonBefore(s[1..]); }
  }

  lemma CutAt(s: string, k: nat)
    requires k < |s| && s[k] == ':'
    ensures s == s[..k] + (":" + s[k + 1..])
  {
  }

  /** A field that is read stands behind its written length, which denotes its number of bytes. */
  lemma FieldRead(input: string, s: string, rest: string)
    requires TakeLengthPrefixedField(input) == Some((s, rest))
    ensures input == Prefix(input) + (":" + (s + (":" + rest))) && ParseUsize(Prefix(input)) == Some(ByteLen(s))
    ensures forall i :: 0 <= i < |Prefix(input)| ==> Prefix(input)[i] != ':'
  {
    hide ParseUsize, ByteLen, SplitOnce, Boundary;
    var (prefix, remainder) := SplitOnce(input).value;
    var length := ParseUsize(prefix).value;
    var k := Boundary(remainder, length).value;
    BoundaryMeasures(remainder, length);
    NoColonBefore(input);
    CutAt(remainder, k);
  }

  lemma ParsedAsPrinted(p: string, n: nat)
    requires ParseUsize(p) == Some(n)
    ensures p == Digits(n) <==> PlainNumber(p)
  {
    if PlainNumber(p) { PlainNumberIsPrinted(p); }
  }

  /** A read field is what the encoder writes exactly when its length is written plainly. */
  lemma FieldAsWritten(input: string, s: string, rest: string)
    requires TakeLengthPrefixedField(input) == Some((s, rest))
    ensures PlainNumber(Prefix(input)) ==> input == Field(s) + rest
    ensures forall x :: input == Field(s) + x ==> PlainNumber(Prefix(input)) && x == rest
  {
    hide ParseUsize, PlainNumber, ByteLen, Digits, Field, TakeLengthPrefixedField, Prefix;
    FieldRead(input, s, rest);
    ParsedAsPrinted(Prefix(input), ByteLen(s));
    FieldText(s, rest);
    forall x | input == Field(s) + x ensures PlainNumber(Prefix(input)) && x == rest {
      FieldText(s, x);
      SamePrefix(Prefix(input), Digits(ByteLen(s)), s + (":" + rest), s + (":" + x));
      PrefixOfBytes(s, s, ":" + rest, ":" + x);
      assert (":" + rest)[1..] == rest && (":" + x)[1..] == x;
    }
  }

  lemma SamePrefix(p: string, d: string, x: string, y: string)
    requires p + (":" + x) == d + (":" + y)
    requires forall i :: 0 <= i < |p| ==> p[i] != ':'
    requires forall i :: 0 <= i < |d| ==> IsDigit(d[i])
    ensures p == d && x == y
  {
    SplitsAtFirstColon(p, x);
    SplitsAtFirstColon(d, y);
  }

  /** The lengths of the first `n` fields of an id, as they are written. */
  function WrittenLengths(id: string, n: nat): seq<string>
    decreases n
  {
    if n == 0 then []
    else match TakeLengthPrefixedField(id)
      case None => []
      case Some((field, rest)) => [Prefix(id)] + WrittenLengths(rest, n - 1)
  }

  /** What follows the first `n` fields of an id. */
  function AfterFields(id: string, n: nat): string
    decreases n
  {
    if n == 0 then id
    else match TakeLengthPrefixedField(id)
      case None => ""
      case Some((field, rest)) => AfterFields(rest, n - 1)
  }

  predicate Plain(lengths: seq<string>) {
    forall i :: 0 <= i < |lengths| ==> PlainNumber(lengths[i])
  }

  /** Three fields in a row are what the encoder writes exactly when their lengths are written plainly. */
  lemma FieldsAsWritten(id: string, a: string, b: string, c: string, x: string, y: string, rest: string)
    requires TakeLengthPrefixedField(id) == Some((a, x))
    requires TakeLengthPrefixedField(x) == Some((b, y))
    requires TakeLengthPrefixedField(y) == Some((c, rest))
    ensures WrittenLengths(id, 3) == [Prefix(id), Prefix(x), Prefix(y)] && AfterFields(id, 3) == rest
    ensures Plain(WrittenLengths(id, 3)) ==> id == Field(a) + (Field(b) + (Field(c) + rest))
    ensures forall z :: id == Field(a) + (Field(b) + (Field(c) + z)) ==> Plain(WrittenLengths(id, 3)) && z == rest
  {
    hide TakeLengthPrefixedField, Prefix, Field, PlainNumber;
    FieldAsWritten(id, a, x);
    FieldAsWritten(x, b, y);
    FieldAsWritten(y, c, rest);
    assert WrittenLengths(y, 1) == [Prefix(y)] + WrittenLengths(rest, 0) && AfterFields(y, 1) == AfterFields(rest, 0);
    assert WrittenLengths(x, 2) == [Prefix(x)] + WrittenLengths(y, 1) && AfterFields(x, 2) == AfterFields(y, 1);
    assert WrittenLengths(id, 3) == [Prefix(id), Prefix(x), Prefix(y)];
    var lengths := WrittenLengths(id, 3);
    assert Plain(lengths) ==> PlainNumber(lengths[0]) && PlainNumber(lengths[1]) && PlainNumber(lengths[2]);
  }

  /** Encoding undoes decoding for exactly the result ids whose three lengths have no sign and no leading zero. */
  lemma EncodingUndoesDecoding(id: string)
    requires ControlResultIdentity(id).Some?
    ensures var (run, framework, control, rule) := ControlResultIdentity(id).value;
            ControlResultRowId(run, framework, control, rule) == id <==> Plain(WrittenLengths(id, 3))
  {
    hide TakeLengthPrefixedField, Prefix, Field, Plain, WrittenLengths;
    var (run, x) := TakeLengthPrefixedField(id).value;
    var (framework, y) := TakeLengthPrefixedField(x).value;
    var (control, rule) := TakeLengthPrefixedField(y).value;
    FieldsAsWritten(id, run, framework, control, x, y, rule);
  }

  /** And for exactly the gap ids whose four lengths have none. */
  lemma GapEncodingUndoesDecoding(id: string)
    requires ComplianceGapIdentity(id).Some?
    ensures var (run, framework, control, rule) := ComplianceGapIdentity(id).value;
            ComplianceGapRowId(run, framework, control, rule) == id
            <==> Plain(WrittenLengths(id, 3)) && PlainNumber(Prefix(AfterFields(id, 3)))
  {
    hide TakeLengthPrefixedField, Field, Plain, WrittenLengths, AfterFields, ParseUsize, PlainNumber, ByteLen, Digits;
    var (run, x) := TakeLengthPrefixedField(id).value;
    var (framework, y) := TakeLengthPrefixedField(x).value;
    var (control, rest) := TakeLengthPrefixedField(y).value;
    var (prefix, rule) := SplitOnce(rest).value;
    FieldsAsWritten(id, run, framework, control, x, y, rest);
    ParsedAsPrinted(prefix, ByteLen(rule));
    if LastField(rule) == rest {
      NoColonBefore(rest);
      SamePrefix(prefix, Digits(ByteLen(rule)), rule, rule);
    }
  }

  /** A sign or a leading zero decodes: the id with either in front of it is another id of the same identity. */
  lemma LaxLengthsDecode(run: Text, framework: string, control: string, rule: string, mark: string)
    requires mark == "+" || mark == "0"
    ensures var id := ControlResultRowId(run, framework, control, rule);
            ControlResultIdentity(mark + id) == ControlResultIdentity(id) && mark + id != id
  {
    hide TakeLengthPrefixedField, Field;
    var rest := Field(framework) + (Field(control) + rule);
    TakesField(run, rest);
    TakesFieldAfter(mark, run, rest);
    assert mark + ControlResultRowId(run, framework, control, rule) == mark + (Field(run) + rest);
  }

  lemma TakesFieldAfter(mark: string, s: Text, rest: string)
    requires mark == "+" || mark == "0"
    ensures TakeLengthPrefixedField(mark + (Field(s) + rest)) == Some((s, rest))
  {
    hide ByteLen, Digits, ParseUsize;
    var d, tail := Digits(ByteLen(s)), s + (":" + rest);
    FieldText(s, rest);
    Assoc(mark, d, ":" + tail);
    DigitsHaveNoColon(ByteLen(s));
    SplitsAtFirstColon(mark + d, tail);
    ParsesMarked(mark, ByteLen(s));
    BoundaryAfter(s, ":" + rest);
    assert tail[..|s|] == s && tail[|s| + 1..] == rest;
  }

  lemma ParsesMarked(mark: string, n: nat)
    requires n <= USIZE_MAX && (mark == "+" || mark == "0")
    ensures ParseUsize(mark + Digits(n)) == Some(n)
  {
    DigitsValue(n);
    if mark == "+" {
      assert ("+" + Digits(n))[1..] == Digits(n);
    } else {
      LeadingZero(Digits(n));
      var t := "0" + Digits(n);
      assert t[0] == '0' && forall i :: 0 <= i < |t| ==> IsDigit(t[i]);
    }
  }

  lemma {:induction false} LeadingZero(d: string)
    requires forall i :: 0 <= i < |d| ==> IsDigit(d[i])
    ensures NatValue("0" + d) == NatValue(d)
  {
    if |d| == 0 {
      assert ("0" + d)[..0] == "";
    } else {
      LeadingZero(d[..|d| - 1]);
      assert ("0" + d)[..|d|] == "0" + d[..|d| - 1];
    }
  }

  // ----- injectivity, for any strings

  /** A digit run followed by a colon is determined by the text it starts. */
  lemma DigitRunUnique(m: nat, n: nat, x: string, y: string)
    requires Digits(m) + (":" + x) == Digits(n) + (":" + y)
    ensures m == n && x == y
  {
    var a, b := Digits(m), Digits(n);
    DigitsHaveNoColon(m);
    DigitsHaveNoColon(n);
    SplitsAtFirstColon(a, x);
    SplitsAtFirstColon(b, y);
    DigitsValue(m);
    DigitsValue(n);
  }

  lemma {:induction false} PrefixOfBytes(a: string, b: string, x: string, y: string)
    requires a + x == b + y && ByteLen(a) == ByteLen(b)
    ensures a == b && x == y
    decreases a
  {
    if |a| == 0 || |b| == 0 {
      assert a == "" == b;
      assert a + x == x && b + y == y;
    } else {
      assert (a + x)[0] == a[0] && (b + y)[0] == b[0];
      assert (a + x)[1..] == a[1..] + x && (b + y)[1..] == b[1..] + y;
      PrefixOfBytes(a[1..], b[1..], x, y);
      assert a == [a[0]] + a[1..] && b == [b[0]] + b[1..];
    }
  }

  lemma FieldUnique(a: string, b: string, x: string, y: string)
    requires Field(a) + x == Field(b) + y
    ensures a == b && x == y
  {
    hide ByteLen, Digits;
    FieldText(a, x);
    FieldText(b, y);
    DigitRunUnique(ByteLen(a), ByteLen(b), a + (":" + x), b + (":" + y));
    PrefixOfBytes(a, b, ":" + x, ":" + y);
    assert (":" + x)[1..] == x && (":" + y)[1..] == y;
  }

  lemma FieldText(s: string, rest: string)
    ensures Field(s) + rest == Digits(ByteLen(s)) + (":" + (s + (":" + rest)))
  {
  }

  lemma LastFieldUnique(a: string, b: string)
    requires LastField(a) == LastField(b)
    ensures a == b
  {
    DigitRunUnique(ByteLen(a), ByteLen(b), a, b);
  }

  /** Distinct identities have distinct result ids. */
  lemma ControlResultRowIdInjective(a: Identity, b: Identity)
    requires ControlResultRowId(a.0, a.1, a.2, a.3) == ControlResultRowId(b.0, b.1, b.2, b.3)
    ensures a == b
  {
    hide Field;
    FieldUnique(a.0, b.0, Field(a.1) + (Field(a.2) + a.3), Field(b.1) + (Field(b.2) + b.3));
    FieldUnique(a.1, b.1, Field(a.2) + a.3, Field(b.2) + b.3);
    FieldUnique(a.2, b.2, a.3, b.3);
  }

  lemma ComplianceGapRowIdInjective(a: Identity, b: Identity)
    requires ComplianceGapRowId(a.0, a.1, a.2, a.3) == ComplianceGapRowId(b.0, b.1, b.2, b.3)
    ensures a == b
  {
    hide Field, LastField;
    FieldUnique(a.0, b.0, Field(a.1) + (Field(a.2) + LastField(a.3)), Field(b.1) + (Field(b.2) + LastField(b.3)));
    FieldUnique(a.1, b.1, Field(a.2) + LastField(a.3), Field(b.2) + LastField(b.3));
    FieldUnique(a.2, b.2, LastField(a.3), LastField(b.3));
    LastFieldUnique(a.3, b.3);
  }

  lemma ScoreSummaryRowIdInjective(run: string, framework: string, run': string, framework': string)
    requires ScoreSummaryRowId(run, framework) == ScoreSummaryRowId(run', framework')
    ensures run == run' && framework == framework'
  {
    hide Field, LastField;
    FieldUnique(run, run', LastField(framework), LastField(framework'));
    LastFieldUnique(framework, framework');
  }

  predicate HasColon(s: string) {
    exists i :: 0 <= i < |s| && s[i] == ':'
  }

  /**
   The id an older version gave a gap equals a current gap id exactly when its rule id spells out the rest of
   that id, so never for a rule id without a colon.
   */
  lemma LegacyGapIdCollides(framework: string, control: string, rule: string, gap: Identity)
    ensures LegacyGapRowId(framework, control, rule) == ComplianceGapRowId(gap.0, gap.1, gap.2, gap.3)
       <==> framework == gap.0 && control == gap.1 && rule == Field(gap.2) + LastField(gap.3)
    ensures rule == Field(gap.2) + LastField(gap.3) ==> HasColon(rule)
  {
    hide Field, LastField, HasColon;
    if LegacyGapRowId(framework, control, rule) == ComplianceGapRowId(gap.0, gap.1, gap.2, gap.3) {
      FieldUnique(framework, gap.0, Field(control) + rule, Field(gap.1) + (Field(gap.2) + LastField(gap.3)));
      FieldUnique(control, gap.1, rule, Field(gap.2) + LastField(gap.3));
    }
    FieldHasColon(gap.2, LastField(gap.3));
  }

  lemma FieldHasColon(s: string, rest: string)
    ensures HasColon(Field(s) + rest)
  {
    FieldText(s, rest);
    assert (Field(s) + rest)[|Digits(ByteLen(s))|] == ':';
  }
}
