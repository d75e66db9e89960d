/**
 JSON values as the runtime sees them, `JSON.stringify` and `JSON.parse`.

 Grammar and escapes follow sections 2 to 7 of RFC 8259; the printer is the compact,
 well-formed one of ECMAScript, which escapes lone surrogates. Objects are sequences of fields,
 because printing depends on their order. The printers take the text that follows as an
 argument, which spares proofs about printed text the associativity of concatenation. The parser
 is a recursive descent; with `raw` it also reads control characters inside string literals.
 */
module Json {
  import opened Prelude
  import opened Utf16

  /** A number read from JSON: its canonical decimal text and its value. */
  datatype Number = Number(text: Text, value: real)

  /** How the runtime turns a number token into a double and back into text. */
  type Reader = Text -> Number

  datatype Value =
    | Null
    | Bool(b: bool)
    | Num(n: Number)
    | Str(s: Text)
    | Arr(items: seq<Value>)
    | Obj(fields: seq<Field>)

  datatype Field = Field(key: Text, value: Value)

  // ---------------------------------------------------------------- objects

  predicate DistinctKeys(fields: seq<Field>) {
    forall i, j :: 0 <= i < j < |fields| ==> fields[i].key != fields[j].key
  }

  /** Position of the first property named `key`, or the number of properties. */
  function IndexOf(fields: seq<Field>, key: Text): (r: nat)
    ensures r <= |fields|
    ensures r < |fields| ==> fields[r].key == key
    ensures forall i :: 0 <= i < r ==> fields[i].key != key
  {
    if fields == [] || fields[0].key == key then 0 else 1 + IndexOf(fields[1..], key)
  }

  predicate HasKey(fields: seq<Field>, key: Text) {
    IndexOf(fields, key) < |fields|
  }

  /** Property access: absent properties read as `undefined`, modelled by None. */
  function Lookup(fields: seq<Field>, key: Text): Option<Value> {
    var i := IndexOf(fields, key);
    if i < |fields| then Some(fields[i].value) else None
  }

  /** Assignment to a property: an existing one keeps its place. */
  function Put(fields: seq<Field>, key: Text, value: Value): (r: seq<Field>)
    ensures DistinctKeys(fields) ==> DistinctKeys(r)
  {
    var i := IndexOf(fields, key);
    if i < |fields| then fields[i := Field(key, value)] else fields + [Field(key, value)]
  }

  /** Every object holds each key once, as the runtime guarantees. */
  predicate Proper(v: Value) {
    match v
    case Arr(items) => forall i :: 0 <= i < |items| ==> Proper(items[i])
    case Obj(fields) => DistinctKeys(fields) && ProperFields(fields)
    case _ => true
  }

  predicate ProperFields(fields: seq<Field>) {
    forall i :: 0 <= i < |fields| ==> Proper(fields[i].value)
  }

  /** No number occurs in the value. */
  predicate Numberless(v: Value) {
    match v
    case Num(_) => false
    case Arr(items) => forall i :: 0 <= i < |items| ==> Numberless(items[i])
    case Obj(fields) => forall i :: 0 <= i < |fields| ==> Numberless(fields[i].value)
    case _ => true
  }

  // ---------------------------------------------------------------- strings

  function HexDigit(d: int): Unit
    requires 0 <= d < 16
  {
    if d < 10 then 0x30 + d else 0x57 + d
  }

  function Hex4(u: Unit): Text {
    [HexDigit(u / 16 / 16 / 16), HexDigit(u / 16 / 16 % 16), HexDigit(u / 16 % 16), HexDigit(u % 16)]
  }

  function HexValue(u: Unit): Option<int> {
    if 0x30 <= u <= 0x39 then Some(u - 0x30)
    else if 0x61 <= u <= 0x66 then Some(u - 0x57)
    else if 0x41 <= u <= 0x46 then Some(u - 0x37)
    else None
  }

  /** The unit written by four hexadecimal digits of either case at the front of `t`. */
  function ParseHex4(t: Text): (r: Option<Unit>) {
    if |t| < 4 then None
    else
      match (HexValue(t[0]), HexValue(t[1]), HexValue(t[2]), HexValue(t[3]))
      case (Some(a), Some(b), Some(c), Some(d)) =>
        assert 0 <= a < 16 && 0 <= b < 16 && 0 <= c < 16 && 0 <= d < 16;
        Some(((a * 16 + b) * 16 + c) * 16 + d)
      case _ => None
  }

  lemma HexRoundTrip(u: Unit, rest: Text)
    ensures ParseHex4(Hex4(u) + rest) == Some(u)
  {
    var t := Hex4(u) + rest;
    assert HexValue(t[0]) == Some(u / 16 / 16 / 16);
    assert HexValue(t[1]) == Some(u / 16 / 16 % 16);
    assert HexValue(t[2]) == Some(u / 16 % 16);
    assert HexValue(t[3]) == Some(u % 16);
  }

  function UnicodeEscape(u: Unit): Text {
    [BACKSLASH, 0x75] + Hex4(u)
  }

  /**
   One code unit that is not half of a surrogate pair, as JSON.stringify writes it. With
   `ticks`, backticks are escaped as well.
   */
  function EscapeUnit(ticks: bool, u: Unit): Text {
    if u == QUOTE || u == BACKSLASH then [BACKSLASH, u]
    else if u == 0x08 then [BACKSLASH, 0x62]
    else if u == TAB then [BACKSLASH, 0x74]
    else if u == NEWLINE then [BACKSLASH, 0x6E]
    else if u == 0x0C then [BACKSLASH, 0x66]
    else if u == RETURN then [BACKSLASH, 0x72]
    else if u < 0x20 || IsSurrogate(u) || (ticks && u == TICK) then UnicodeEscape(u)
    else [u]
  }

  /** The escaped content `s` in front of `rest`. */
  function EscapeTo(ticks: bool, s: Text, rest: Text): Text {
    if s == [] then rest
    else if StartsWithPair(s) then [s[0]] + ([s[1]] + EscapeTo(ticks, s[2..], rest))
    else EscapeUnit(ticks, s[0]) + EscapeTo(ticks, s[1..], rest)
  }

  function QuoteTo(ticks: bool, s: Text, rest: Text): Text {
    [QUOTE] + EscapeTo(ticks, s, [QUOTE] + rest)
  }

  /** The unit denoted by the escape letter `u`; None for `u` itself and for invalid letters. */
  function SimpleEscape(u: Unit): Option<Unit> {
    if u == QUOTE || u == BACKSLASH || u == 0x2F then Some(u)
    else if u == 0x62 then Some(0x08)
    else if u == 0x66 then Some(0x0C)
    else if u == 0x6E then Some(NEWLINE)
    else if u == 0x72 then Some(RETURN)
    else if u == 0x74 then Some(TAB)
    else None
  }

  /**
   The rest of a string literal after its opening quote: the content and what follows.

   The grammar has no control characters inside a literal. With `raw` they are read as
   themselves, except that a line ends in a line feed however it was ended.
   */
  function ParseChars(t: Text, raw: bool): (r: Option<(Text, Text)>)
    ensures r.Some? ==> |r.value.1| < |t|
    decreases |t|
  {
    if t == [] then None
    else if t[0] == QUOTE then Some(([], t[1..]))
    else if t[0] < 0x20 then
      if !raw then None
      else if t[0] != RETURN then Prepend(t[0], ParseChars(t[1..], raw))
      else Prepend(NEWLINE, ParseChars(t[LineEnd(t)..], raw))
    else if t[0] != BACKSLASH then Prepend(t[0], ParseChars(t[1..], raw))
    else if |t| < 2 then None
    else if SimpleEscape(t[1]).Some? then Prepend(SimpleEscape(t[1]).value, ParseChars(t[2..], raw))
    else if t[1] == 0x75 && ParseHex4(t[2..]).Some? then
      Prepend(ParseHex4(t[2..]).value, ParseChars(t[6..], raw))
    else None
  }

  /** A carriage return and a line feed right after it end one line. */
  function LineEnd(t: Text): (n: nat)
    requires t != []
    ensures 1 <= n <= |t|
  {
    if |t| >= 2 && t[1] == NEWLINE then 2 else 1
  }

  function Prepend(u: Unit, r: Option<(Text, Text)>): Option<(Text, Text)> {
    match r
    case None => None
    case Some((s, rest)) => Some(([u] + s, rest))
  }

  // ---------------------------------------------------------------- printing

  /** The compact text of `v` in front of `rest`. */
  function PrintTo(ticks: bool, v: Value, rest: Text): Text
    decreases v, 1
  {
    match v
    case Null => Lit("null") + rest
    case Bool(b) => (if b then Lit("true") else Lit("false")) + rest
    case Num(n) => n.text + rest
    case Str(s) => QuoteTo(ticks, s, rest)
    case Arr(items) => [0x5B] + PrintItemsTo(ticks, items, [0x5D] + rest)
    case Obj(fields) => [0x7B] + PrintFieldsTo(ticks, fields, [0x7D] + rest)
  }

  function PrintItemsTo(ticks: bool, items: seq<Value>, rest: Text): Text
    decreases items, 0
  {
    if items == [] then rest
    else if |items| == 1 then PrintTo(ticks, items[0], rest)
    else PrintTo(ticks, items[0], [0x2C] + PrintItemsTo(ticks, items[1..], rest))
  }

  function PrintFieldsTo(ticks: bool, fields: seq<Field>, rest: Text): Text
    decreases fields, 0
  {
    if fields == [] then rest
    else if |fields| == 1 then QuoteTo(ticks, fields[0].key, [0x3A] + PrintTo(ticks, fields[0].value, rest))
    else
      QuoteTo(ticks, fields[0].key,
        [0x3A] + PrintTo(ticks, fields[0].value, [0x2C] + PrintFieldsTo(ticks, fields[1..], rest)))
  }

  /** JSON.stringify(v). */
  function Print(v: Value): Text {
    PrintTo(false, v, [])
  }

  // ---------------------------------------------------------------- parsing

  predicate IsJsonSpace(u: Unit) {
    u == 0x20 || u == TAB || u == NEWLINE || u == RETURN
  }

  function SkipSpace(t: Text): (r: Text)
    ensures |r| <= |t|
    ensures r != [] ==> !IsJsonSpace(r[0])
  {
    if t != [] && IsJsonSpace(t[0]) then SkipSpace(t[1..]) else t
  }

  predicate IsDigit(u: Unit) {
    0x30 <= u <= 0x39
  }

  /** Length of the longest run of digits at the front. */
  function Digits(t: Text): (n: nat)
    ensures n <= |t|
  {
    if t != [] && IsDigit(t[0]) then 1 + Digits(t[1..]) else 0
  }

  /** End of the sign and whole part of a number at the front of `t`; zero if there is none. */
  function WholeEnd(t: Text): (n: nat)
    ensures n <= |t|
  {
    var minus := if t != [] && t[0] == 0x2D then 1 else 0;
    if minus < |t| && t[minus] == 0x30 then minus + 1
    else if Digits(t[minus..]) == 0 then 0
    else minus + Digits(t[minus..])
  }

  function FractionEnd(t: Text, a: nat): (n: nat)
    requires a <= |t|
    ensures a <= n <= |t|
  {
    if a < |t| && t[a] == 0x2E && Digits(t[a + 1..]) > 0 then a + 1 + Digits(t[a + 1..]) else a
  }

  function ExponentEnd(t: Text, b: nat): (n: nat)
    requires b <= |t|
    ensures b <= n <= |t|
  {
    if b < |t| && (t[b] == 0x65 || t[b] == 0x45) then
      var digits := if b + 1 < |t| && (t[b + 1] == 0x2B || t[b + 1] == 0x2D) then b + 2 else b + 1;
      if Digits(t[digits..]) == 0 then b else digits + Digits(t[digits..])
    else b
  }

  /** Length of the number token at the front of `t`, or zero if there is none. */
  function NumberLength(t: Text): (n: nat)
    ensures n <= |t|
  {
    var a := WholeEnd(t);
    if a == 0 then 0 else ExponentEnd(t, FractionEnd(t, a))
  }

  /** A literal name or a number. */
  function ParseAtom(s: Text, num: Reader): (r: Option<(Value, Text)>)
    ensures r.Some? ==> |r.value.1| < |s|
  {
    if StartsWith(s, Lit("null")) then Some((Null, s[4..]))
    else if StartsWith(s, Lit("true")) then Some((Bool(true), s[4..]))
    else if StartsWith(s, Lit("false")) then Some((Bool(false), s[5..]))
    else
      var n := NumberLength(s);
      if n == 0 then None else Some((Num(num(s[..n])), s[n..]))
  }

  /** One value at the front of `t`, and the text after it. */
  function ParseValue(t: Text, num: Reader, raw: bool): (r: Option<(Value, Text)>)
    ensures r.Some? ==> |r.value.1| < |t|
    decreases |t|, 2
  {
    var s := SkipSpace(t);
    if s == [] then None
    else if s[0] == QUOTE then
      match ParseChars(s[1..], raw)
      case None => None
      case Some((content, rest)) => Some((Str(content), rest))
    else if s[0] == 0x5B then
      var inner := SkipSpace(s[1..]);
      if inner != [] && inner[0] == 0x5D then Some((Arr([]), inner[1..])) else ParseItems(inner, num, raw, [])
    else if s[0] == 0x7B then
      var inner := SkipSpace(s[1..]);
      if inner != [] && inner[0] == 0x7D then Some((Obj([]), inner[1..])) else ParseFields(inner, num, raw, [])
    else ParseAtom(s, num)
  }

  /** The items of an array up to its closing bracket, after those already read. */
  function ParseItems(t: Text, num: Reader, raw: bool, items: seq<Value>): (r: Option<(Value, Text)>)
    ensures r.Some? ==> |r.value.1| < |t|
    decreases |t|, 3
  {
    match ParseValue(t, num, raw)
    case None => None
    case Some((v, rest)) =>
      var s := SkipSpace(rest);
      if s == [] then None
      else if s[0] == 0x2C then ParseItems(s[1..], num, raw, items + [v])
      else if s[0] == 0x5D then Some((Arr(items + [v]), s[1..]))
      else None
  }

  /** The properties of an object up to its closing brace; a repeated key overwrites. */
  function ParseFields(t: Text, num: Reader, raw: bool, fields: seq<Field>): (r: Option<(Value, Text)>)
    ensures r.Some? ==> |r.value.1| < |t|
    decreases |t|, 3
  {
    var s := SkipSpace(t);
    if s == [] || s[0] != QUOTE then None
    else
      match ParseChars(s[1..], raw)
      case None => None
      case Some((key, afterKey)) =>
        var colon := SkipSpace(afterKey);
        if colon == [] || colon[0] != 0x3A then None
        else
          match ParseValue(colon[1..], num, raw)
          case None => None
          case Some((v, rest)) =>
            var next := SkipSpace(rest);
            if next == [] then None
            else if next[0] == 0x2C then ParseFields(next[1..], num, raw, Put(fields, key, v))
            else if next[0] == 0x7D then Some((Obj(Put(fields, key, v)), next[1..]))
            else None
  }

  /** JSON.parse(t), where None stands for the SyntaxError it throws; lenient with `raw`. */
  function Parse(t: Text, num: Reader, raw: bool): Option<Value> {
    match ParseValue(t, num, raw)
    case None => None
    case Some((v, rest)) => if SkipSpace(rest) == [] then Some(v) else None
  }
}
