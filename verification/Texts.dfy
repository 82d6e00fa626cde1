/**
 Texts are sequences of Unicode scalar values. Every position the program computes in a text lies on a
 character boundary, so positions are counted in characters here; only modules that compute with byte
 lengths (row ids, PDF output) count bytes.
 */
module Texts {
  import opened Wrappers

  /** `part` stands at position `i` of `text`. */
  predicate At(text: string, i: int, part: string) {
    0 <= i && i + |part| <= |text| && text[i..i + |part|] == part
  }

  lemma AtConcat(text: string, i: int, a: string, b: string)
    ensures At(text, i, a + b) <==> At(text, i, a) && At(text, i + |a|, b)
  {
    if At(text, i, a + b) {
      assert text[i..i + |a|] == (a + b)[..|a|] == a;
      assert text[i + |a|..i + |a| + |b|] == (a + b)[|a|..] == b;
    }
  }

  lemma Assoc(a: string, b: string, c: string)
    ensures (a + b) + c == a + (b + c)
  {
  }

  lemma PrefixStep<T>(s: seq<T>, i: nat)
    requires i < |s|
    ensures s[..i + 1] == s[..i] + [s[i]]
  {
  }

  lemma SliceStep<T>(s: seq<T>, a: nat, i: nat)
    requires a <= i < |s|
    ensures s[a..i + 1] == s[a..i] + [s[i]]
  {
  }

  lemma AtChar(text: string, i: int, part: string, k: int)
    requires At(text, i, part) && 0 <= k < |part|
    ensures 0 <= i && i + |part| <= |text| && text[i + k] == part[k]
  {
    assert text[i..i + |part|][k] == part[k];
  }

  lemma AtInside(pre: string, part: string, post: string)
    ensures At(pre + part + post, |pre|, part)
  {
    assert (pre + part + post)[|pre|..|pre| + |part|] == part;
  }

  /** Position of the first occurrence of `part` at or after `from`, as `str::find` gives it. */
  function Find(text: string, part: string, from: nat): (r: Option<nat>)
    ensures r.Some? ==> from <= r.value && At(text, r.value, part)
    ensures r.Some? ==> forall p :: from <= p < r.value ==> !At(text, p, part)
    ensures r.None? ==> forall p :: from <= p ==> !At(text, p, part)
    decreases |text| - from
  {
    if At(text, from, part) then Some(from)
    else if from + |part| >= |text| then None
    else Find(text, part, from + 1)
  }

  /** A text with the first occurrence of `part` taken out, as `replacen(part, "", 1)` does. */
  function RemoveFirst(text: string, part: string): string {
    match Find(text, part, 0)
    case None => text
    case Some(p) => text[..p] + text[p + |part|..]
  }

  lemma FindIs(text: string, part: string, p: nat)
    requires At(text, p, part)
    requires forall q :: 0 <= q < p ==> !At(text, q, part)
    ensures Find(text, part, 0) == Some(p)
  {
  }

  predicate IsDigit(c: char) {
    '0' <= c <= '9'
  }

  /** The value of a hexadecimal digit. */
  function HexValue(c: char): Option<nat> {
    if '0' <= c <= '9' then Some(c as int - '0' as int)
    else if 'a' <= c <= 'f' then Some(c as int - 'a' as int + 10)
    else if 'A' <= c <= 'F' then Some(c as int - 'A' as int + 10)
    else None
  }

  /** The decimal digits of `n`, without leading zeros. */
  function Digits(n: nat): (s: string)
    ensures |s| > 0 && forall i :: 0 <= i < |s| ==> IsDigit(s[i])
    ensures |s| > 1 ==> s[0] != '0'
  {
    if n < 10 then [DigitChar(n)] else Digits(n / 10) + [DigitChar(n % 10)]
  }

  function DigitChar(n: nat): (c: char)
    requires n < 10
    ensures IsDigit(c) && DigitValue(c) == n
  {
    '0' + n as char
  }

  /** The number a digit string denotes, most significant digit first. */
  function NatValue(s: string): nat
    requires forall i :: 0 <= i < |s| ==> IsDigit(s[i])
  {
    if |s| == 0 then 0 else 10 * NatValue(s[..|s| - 1]) + DigitValue(s[|s| - 1])
  }

  function DigitValue(c: char): nat
    requires IsDigit(c)
  {
    c as int - '0' as int
  }

  lemma DigitsValue(n: nat)
    ensures NatValue(Digits(n)) == n
  {
    var s := Digits(n);
    if n < 10 {
      assert s[..|s| - 1] == "";
    } else {
      assert s[..|s| - 1] == Digits(n / 10);
      DigitsValue(n / 10);
    }
  }
}
