/**
 JavaScript strings: sequences of UTF-16 code units, in which surrogates may stand alone.

 What is here is what the runtime's own string functions do: the class of white space that
 regular expressions and `trim` share, trimming, prefixes, and the number of bytes a string
 takes in UTF-8, where a pair of surrogates takes four bytes and a surrogate on its own is
 replaced by a character of three. `Lit` turns a literal of the program into code units.
 */
module Utf16 {
  type Unit = u: int | 0 <= u < 0x1_0000

  type Text = seq<Unit>

  const QUOTE: Unit := 0x22
  const BACKSLASH: Unit := 0x5C
  const TICK: Unit := 0x60
  const NEWLINE: Unit := 0x0A
  const RETURN: Unit := 0x0D
  const TAB: Unit := 0x09

  /** The code units of a literal of the source. */
  function Lit(s: string): (t: Text)
    ensures |t| == |s|
  {
    seq(|s|, i requires 0 <= i < |s| => (s[i] as int) % 0x1_0000)
  }

  predicate IsHigh(u: Unit) {
    0xD800 <= u <= 0xDBFF
  }

  predicate IsLow(u: Unit) {
    0xDC00 <= u <= 0xDFFF
  }

  predicate IsSurrogate(u: Unit) {
    0xD800 <= u <= 0xDFFF
  }

  /** A high surrogate followed by a low one: a single code point. */
  predicate StartsWithPair(t: Text) {
    |t| >= 2 && IsHigh(t[0]) && IsLow(t[1])
  }

  /** The class `\s` of a regular expression, which is also what `trim` removes. */
  predicate IsSpace(u: Unit) {
    || 0x09 <= u <= 0x0D
    || u == 0x20 || u == 0xA0 || u == 0x1680
    || 0x2000 <= u <= 0x200A
    || u == 0x2028 || u == 0x2029 || u == 0x202F || u == 0x205F || u == 0x3000 || u == 0xFEFF
  }

  predicate Blank(t: Text) {
    forall i :: 0 <= i < |t| ==> IsSpace(t[i])
  }

  function TrimStart(t: Text): (r: Text)
    ensures |r| <= |t|
    ensures r == [] <==> Blank(t)
    ensures r != [] ==> !IsSpace(r[0])
  {
    if t == [] then []
    else if IsSpace(t[0]) then
      assert forall i :: 0 < i < |t| ==> t[i] == t[1..][i - 1];
      TrimStart(t[1..])
    else t
  }

  function TrimEnd(t: Text): (r: Text)
    ensures |r| <= |t|
  {
    if t == [] then []
    else if IsSpace(t[|t| - 1]) then TrimEnd(t[..|t| - 1])
    else t
  }

  /** String.prototype.trim. */
  function Trim(t: Text): Text {
    TrimEnd(TrimStart(t))
  }

  predicate StartsWith(t: Text, p: Text) {
    |p| <= |t| && t[..|p|] == p
  }

  /** Buffer.byteLength(text, "utf8"): a lone surrogate is written as U+FFFD, three bytes. */
  function Utf8Length(t: Text): nat {
    if t == [] then 0
    else if StartsWithPair(t) then 4 + Utf8Length(t[2..])
    else UnitBytes(t[0]) + Utf8Length(t[1..])
  }

  function UnitBytes(u: Unit): nat {
    if u < 0x80 then 1 else if u < 0x800 then 2 else 3
  }

  lemma {:induction false} Utf8LengthConcat(a: Text, b: Text)
    requires a == [] || b == [] || !(IsHigh(a[|a| - 1]) && IsLow(b[0]))
    ensures Utf8Length(a + b) == Utf8Length(a) + Utf8Length(b)
    decreases |a|
  {
    if a == [] {
      assert a + b == b;
    } else if b == [] {
      assert a + b == a;
    } else if StartsWithPair(a) {
      assert (a + b)[2..] == a[2..] + b;
      Utf8LengthConcat(a[2..], b);
    } else {
      assert (a + b)[1..] == a[1..] + b;
      assert !StartsWithPair(a + b);
      Utf8LengthConcat(a[1..], b);
    }
  }
}
