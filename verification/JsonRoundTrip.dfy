/**
 Printing a value and parsing it back, with or without the backtick escape that keeps
 Markdown fences out of the printed text.

 A value is printed in front of an arbitrary text, and parsing stops exactly at that text, by
 induction over the value; items and fields carry along what was parsed before them. Replacing
 backticks after printing is the same as printing with one more escape, because the compact
 printer writes backticks inside string literals only, where a Unicode escape reads back as the
 character.
 */
module JsonRoundTrip {
  import opened Prelude
  import opened Utf16
  import opened Json

  // ---------------------------------------------------------------- escaping backticks

  /** `text.replace(/`/g, "\\u0060")`. */
  function EscapeTicks(t: Text): Text {
    if t == [] then []
    else (if t[0] == TICK then UnicodeEscape(TICK) else [t[0]]) + EscapeTicks(t[1..])
  }

  predicate Tickless(t: Text) {
    forall i :: 0 <= i < |t| ==> t[i] != TICK
  }

  lemma {:induction false} EscapeTicksTickless(t: Text)
    ensures Tickless(EscapeTicks(t))
  {
    if t != [] {
      EscapeTicksTickless(t[1..]);
    }
  }

  lemma {:induction false} EscapeTicksPast(a: Text, rest: Text)
    requires Tickless(a)
    ensures EscapeTicks(a + rest) == a + EscapeTicks(rest)
  {
    if a == [] {
      assert a + rest == rest;
    } else {
      EscapeTicksPast(a[1..], rest);
      assert (a + rest)[1..] == a[1..] + rest;
      assert [a[0]] + (a[1..] + EscapeTicks(rest)) == a + EscapeTicks(rest);
    }
  }

  lemma EscapeTicksUnit(u: Unit, rest: Text)
    ensures EscapeTicks(EscapeUnit(false, u) + rest) == EscapeUnit(true, u) + EscapeTicks(rest)
  {
    if u == TICK {
      assert ([u] + rest)[1..] == rest;
    } else {
      EscapeTicksPast(EscapeUnit(false, u), rest);
    }
  }

  lemma {:induction false} EscapeTicksEscaped(s: Text, rest: Text)
    ensures EscapeTicks(EscapeTo(false, s, rest)) == EscapeTo(true, s, EscapeTicks(rest))
    decreases |s|
  {
    if s == [] {
    } else if StartsWithPair(s) {
      EscapeTicksEscaped(s[2..], rest);
      EscapeTicksPast([s[1]], EscapeTo(false, s[2..], rest));
      EscapeTicksPast([s[0]], [s[1]] + EscapeTo(false, s[2..], rest));
    } else {
      EscapeTicksEscaped(s[1..], rest);
      EscapeTicksUnit(s[0], EscapeTo(false, s[1..], rest));
    }
  }

  lemma EscapeTicksQuoted(s: Text, rest: Text)
    ensures EscapeTicks(QuoteTo(false, s, rest)) == QuoteTo(true, s, EscapeTicks(rest))
  {
    EscapeTicksPast([QUOTE], EscapeTo(false, s, [QUOTE] + rest));
    EscapeTicksEscaped(s, [QUOTE] + rest);
    EscapeTicksPast([QUOTE], rest);
  }

  lemma LiteralWords()
    ensures Tickless(Lit("null")) && Tickless(Lit("true")) && Tickless(Lit("false"))
    ensures Lit("null")[0] == 0x6E && Lit("true")[0] == 0x74 && Lit("false")[0] == 0x66
  {
  }

  /** Escaping the backticks of printed text is printing with backticks escaped. */
  lemma {:induction false} EscapeTicksPrinted(v: Value, rest: Text)
    requires Numberless(v)
    ensures EscapeTicks(PrintTo(false, v, rest)) == PrintTo(true, v, EscapeTicks(rest))
    decreases v, 1
  {
    LiteralWords();
    match v {
      case Null => EscapeTicksPast(Lit("null"), rest);
      case Bool(b) => EscapeTicksPast(if b then Lit("true") else Lit("false"), rest);
      case Str(s) => EscapeTicksQuoted(s, rest);
      case Arr(items) =>
        EscapeTicksPast([0x5B], PrintItemsTo(false, items, [0x5D] + rest));
        EscapeTicksItems(items, [0x5D] + rest);
        EscapeTicksPast([0x5D], rest);
      case Obj(fields) =>
        EscapeTicksPast([0x7B], PrintFieldsTo(false, fields, [0x7D] + rest));
        EscapeTicksFields(fields, [0x7D] + rest);
        EscapeTicksPast([0x7D], rest);
    }
  }

  lemma {:induction false} EscapeTicksItems(items: seq<Value>, rest: Text)
    requires forall i :: 0 <= i < |items| ==> Numberless(items[i])
    ensures EscapeTicks(PrintItemsTo(false, items, rest)) == PrintItemsTo(true, items, EscapeTicks(rest))
    decreases items, 0
  {
    if |items| == 1 {
      EscapeTicksPrinted(items[0], rest);
    } else if items != [] {
      var next := PrintItemsTo(false, items[1..], rest);
      EscapeTicksPrinted(items[0], [0x2C] + next);
      EscapeTicksPast([0x2C], next);
      EscapeTicksItems(items[1..], rest);
    }
  }

  lemma {:induction false} EscapeTicksFields(fields: seq<Field>, rest: Text)
    requires forall i :: 0 <= i < |fields| ==> Numberless(fields[i].value)
    ensures EscapeTicks(PrintFieldsTo(false, fields, rest)) == PrintFieldsTo(true, fields, EscapeTicks(rest))
    decreases fields, 0
  {
    if fields != [] {
      var next := if |fields| == 1 then rest else [0x2C] + PrintFieldsTo(false, fields[1..], rest);
      EscapeTicksPrinted(fields[0].value, next);
      EscapeTicksPast([0x3A], PrintTo(false, fields[0].value, next));
      EscapeTicksQuoted(fields[0].key, [0x3A] + PrintTo(false, fields[0].value, next));
      if |fields| > 1 {
        EscapeTicksPast([0x2C], PrintFieldsTo(false, fields[1..], rest));
        EscapeTicksFields(fields[1..], rest);
      }
    }
  }

  // ---------------------------------------------------------------- parsing printed text

  lemma ParseUnicodeEscape(raw: bool, u: Unit, rest: Text)
    ensures ParseChars(UnicodeEscape(u) + rest, raw) == Prepend(u, ParseChars(rest, raw))
  {
    var t := UnicodeEscape(u) + rest;
    assert t[2..] == Hex4(u) + rest;
    assert t[6..] == rest;
    HexRoundTrip(u, rest);
  }

  lemma ParseEscapedUnit(raw: bool, ticks: bool, u: Unit, rest: Text)
    ensures ParseChars(EscapeUnit(ticks, u) + rest, raw) == Prepend(u, ParseChars(rest, raw))
  {
    var t := EscapeUnit(ticks, u) + rest;
    if |EscapeUnit(ticks, u)| == 6 {
      ParseUnicodeEscape(raw, u, rest);
    } else if |EscapeUnit(ticks, u)| == 2 {
      assert t[2..] == rest;
    } else {
      assert t[1..] == rest;
    }
  }

  /** Reading an escaped string literal gives back its content, whatever follows it. */
  lemma {:induction false} ParseEscaped(raw: bool, ticks: bool, s: Text, rest: Text)
    ensures ParseChars(EscapeTo(ticks, s, [QUOTE] + rest), raw) == Some((s, rest))
    decreases |s|
  {
    if s == [] {
      assert ([QUOTE] + rest)[1..] == rest;
    } else if StartsWithPair(s) {
      var tail := EscapeTo(ticks, s[2..], [QUOTE] + rest);
      ParseEscaped(raw, ticks, s[2..], rest);
      ParseRaw(raw, s[1], tail);
      ParseRaw(raw, s[0], [s[1]] + tail);
      assert [s[0]] + ([s[1]] + s[2..]) == s;
    } else {
      ParseEscaped(raw, ticks, s[1..], rest);
      ParseEscapedUnit(raw, ticks, s[0], EscapeTo(ticks, s[1..], [QUOTE] + rest));
      assert [s[0]] + s[1..] == s;
    }
  }

  lemma ParseRaw(raw: bool, u: Unit, rest: Text)
    requires u >= 0x20 && u != QUOTE && u != BACKSLASH
    ensures ParseChars([u] + rest, raw) == Prepend(u, ParseChars(rest, raw))
  {
    assert ([u] + rest)[1..] == rest;
  }

  /** The first unit of a printed value is no space, comma, colon or closing bracket. */
  lemma PrintHead(ticks: bool, v: Value, rest: Text)
    requires Numberless(v)
    ensures var t := PrintTo(ticks, v, rest);
            t != [] && !IsJsonSpace(t[0]) && t[0] != 0x5D && t[0] != 0x7D
  {
    LiteralWords();
  }

  lemma ParseWord(v: Value, num: Reader, raw: bool, rest: Text)
    requires v.Null? || v.Bool?
    ensures ParseValue(PrintTo(true, v, rest), num, raw) == Some((v, rest))
  {
    LiteralWords();
    var word := if v.Null? then Lit("null") else if v.b then Lit("true") else Lit("false");
    var t := word + rest;
    assert t[0] == word[0];
    assert t[..|word|] == word && t[|word|..] == rest;
    assert SkipSpace(t) == t;
    if v.Bool? {
      assert t[..4][0] != Lit("null")[0];
      if !v.b {
        assert t[..4][0] != Lit("true")[0];
      }
    }
  }

  lemma ParseItemStep(t: Text, num: Reader, raw: bool, before: seq<Value>, v: Value, close: bool, next: Text)
    requires ParseValue(t, num, raw) == Some((v, [if close then 0x5D else 0x2C] + next))
    ensures ParseItems(t, num, raw, before) ==
            if close then Some((Arr(before + [v]), next)) else ParseItems(next, num, raw, before + [v])
  {
    var s := [if close then 0x5D else 0x2C] + next;
    assert SkipSpace(s) == s;
    assert s[1..] == next;
  }

  lemma ParseFieldStep(t: Text, num: Reader, raw: bool, before: seq<Field>, f: Field, afterKey: Text, close: bool, next: Text)
    requires t != [] && t[0] == QUOTE
    requires ParseChars(t[1..], raw) == Some((f.key, [0x3A] + afterKey))
    requires ParseValue(afterKey, num, raw) == Some((f.value, [if close then 0x7D else 0x2C] + next))
    ensures ParseFields(t, num, raw, before) ==
            if close then Some((Obj(Put(before, f.key, f.value)), next))
            else ParseFields(next, num, raw, Put(before, f.key, f.value))
  {
    assert SkipSpace(t) == t;
    var colon := [0x3A] + afterKey;
    assert SkipSpace(colon) == colon;
    assert colon[1..] == afterKey;
    var s := [if close then 0x7D else 0x2C] + next;
    assert SkipSpace(s) == s;
    assert s[1..] == next;
  }

  lemma ParseEmpty(num: Reader, raw: bool, rest: Text)
    ensures ParseValue([0x5B] + ([0x5D] + rest), num, raw) == Some((Arr([]), rest))
    ensures ParseValue([0x7B] + ([0x7D] + rest), num, raw) == Some((Obj([]), rest))
  {
    forall open: Unit, close: Unit | (open == 0x5B && close == 0x5D) || (open == 0x7B && close == 0x7D)
      ensures ParseValue([open] + ([close] + rest), num, raw) ==
              Some((if open == 0x5B then Arr([]) else Obj([]), rest))
    {
      var t := [open] + ([close] + rest);
      assert SkipSpace(t) == t;
      assert t[1..] == [close] + rest;
      assert SkipSpace(t[1..]) == t[1..];
      assert t[1..][1..] == rest;
    }
  }

  lemma ParseOpened(open: Unit, inner: Text, num: Reader, raw: bool)
    requires open == 0x5B || open == 0x7B
    requires inner != [] && !IsJsonSpace(inner[0]) && inner[0] != 0x5D && inner[0] != 0x7D
    ensures ParseValue([open] + inner, num, raw) ==
            if open == 0x5B then ParseItems(inner, num, raw, []) else ParseFields(inner, num, raw, [])
  {
    var t := [open] + inner;
    assert SkipSpace(t) == t;
    assert t[1..] == inner;
    assert SkipSpace(inner) == inner;
  }

  lemma ParseString(s: Text, ticks: bool, num: Reader, raw: bool, rest: Text)
    ensures QuoteTo(ticks, s, rest) != [] && QuoteTo(ticks, s, rest)[0] == QUOTE
    ensures ParseChars(QuoteTo(ticks, s, rest)[1..], raw) == Some((s, rest))
    ensures ParseValue(QuoteTo(ticks, s, rest), num, raw) == Some((Str(s), rest))
  {
    var t := QuoteTo(ticks, s, rest);
    assert SkipSpace(t) == t;
    assert t[1..] == EscapeTo(ticks, s, [QUOTE] + rest);
    ParseEscaped(raw, ticks, s, rest);
  }

  /** JSON.parse undoes the printer in front of any text. */
  lemma {:induction false} ParsePrinted(ticks: bool, v: Value, num: Reader, raw: bool, rest: Text)
    requires Proper(v) && Numberless(v)
    ensures ParseValue(PrintTo(ticks, v, rest), num, raw) == Some((v, rest))
    decreases v, 1
  {
    match v {
      case Null => ParseWord(v, num, raw, rest);
      case Bool(b) => ParseWord(v, num, raw, rest);
      case Str(s) => ParseString(s, ticks, num, raw, rest);
      case Arr(items) =>
        if items == [] {
          ParseEmpty(num, raw, rest);
        } else {
          ItemsHead(ticks, items, [0x5D] + rest);
          ParseOpened(0x5B, PrintItemsTo(ticks, items, [0x5D] + rest), num, raw);
          ParsePrintedItems(ticks, items, [], num, raw, rest);
          assert [] + items == items;
        }
      case Obj(fields) =>
        if fields == [] {
          ParseEmpty(num, raw, rest);
        } else {
          var inner := PrintFieldsTo(ticks, fields, [0x7D] + rest);
          assert inner[0] == QUOTE;
          ParseOpened(0x7B, inner, num, raw);
          assert [] + fields == fields;
          ParsePrintedFields(ticks, fields, [], num, raw, rest);
        }
    }
  }

  lemma ItemsHead(ticks: bool, items: seq<Value>, rest: Text)
    requires items != [] && Numberless(items[0])
    ensures var t := PrintItemsTo(ticks, items, rest);
            t != [] && !IsJsonSpace(t[0]) && t[0] != 0x5D && t[0] != 0x7D
  {
    PrintHead(ticks, items[0], if |items| == 1 then rest else [0x2C] + PrintItemsTo(ticks, items[1..], rest));
  }

  lemma {:induction false} ParsePrintedItems(ticks: bool, items: seq<Value>, before: seq<Value>, num: Reader, raw: bool, rest: Text)
    requires items != []
    requires forall i :: 0 <= i < |items| ==> Proper(items[i]) && Numberless(items[i])
    ensures ParseItems(PrintItemsTo(ticks, items, [0x5D] + rest), num, raw, before) == Some((Arr(before + items), rest))
    decreases items, 0
  {
    if |items| == 1 {
      ParsePrinted(ticks, items[0], num, raw, [0x5D] + rest);
      ParseItemStep(PrintItemsTo(ticks, items, [0x5D] + rest), num, raw, before, items[0], true, rest);
      assert [items[0]] == items;
    } else {
      var next := PrintItemsTo(ticks, items[1..], [0x5D] + rest);
      ParsePrinted(ticks, items[0], num, raw, [0x2C] + next);
      ParseItemStep(PrintItemsTo(ticks, items, [0x5D] + rest), num, raw, before, items[0], false, next);
      ParsePrintedItems(ticks, items[1..], before + [items[0]], num, raw, rest);
      assert before + [items[0]] + items[1..] == before + items;
    }
  }

  lemma PutFresh(before: seq<Field>, fields: seq<Field>)
    requires fields != [] && DistinctKeys(before + fields)
    ensures Put(before, fields[0].key, fields[0].value) == before + [fields[0]]
    ensures (before + [fields[0]]) + fields[1..] == before + fields
  {
    var all := before + fields;
    forall i | 0 <= i < |before| ensures before[i].key != fields[0].key {
      assert all[i] == before[i] && all[|before|] == fields[0];
    }
  }

  lemma {:induction false} ParsePrintedField(ticks: bool, f: Field, before: seq<Field>, num: Reader, raw: bool, close: bool, next: Text)
    requires var tail := [if close then 0x7D else 0x2C] + next;
             ParseValue(PrintTo(ticks, f.value, tail), num, raw) == Some((f.value, tail))
    ensures ParseFields(QuoteTo(ticks, f.key, [0x3A] + PrintTo(ticks, f.value, [if close then 0x7D else 0x2C] + next)), num, raw, before) ==
            if close then Some((Obj(Put(before, f.key, f.value)), next))
            else ParseFields(next, num, raw, Put(before, f.key, f.value))
  {
    var value := PrintTo(ticks, f.value, [if close then 0x7D else 0x2C] + next);
    ParseString(f.key, ticks, num, raw, [0x3A] + value);
    ParseFieldStep(QuoteTo(ticks, f.key, [0x3A] + value), num, raw, before, f, value, close, next);
  }

  lemma {:induction false} ParsePrintedFields(ticks: bool, fields: seq<Field>, before: seq<Field>, num: Reader, raw: bool, rest: Text)
    requires fields != [] && DistinctKeys(before + fields)
    requires forall i :: 0 <= i < |fields| ==> Proper(fields[i].value) && Numberless(fields[i].value)
    ensures ParseFields(PrintFieldsTo(ticks, fields, [0x7D] + rest), num, raw, before) == Some((Obj(before + fields), rest))
    decreases fields, 0
  {
    PutFresh(before, fields);
    var f := fields[0];
    assert Proper(f.value) && Numberless(f.value);
    if |fields| == 1 {
      ParsePrinted(ticks, f.value, num, raw, [0x7D] + rest);
      ParsePrintedField(ticks, f, before, num, raw, true, rest);
      assert [f] == fields;
    } else {
      var next := PrintFieldsTo(ticks, fields[1..], [0x7D] + rest);
      ParsePrinted(ticks, f.value, num, raw, [0x2C] + next);
      ParsePrintedField(ticks, f, before, num, raw, false, next);
      ParsePrintedFields(ticks, fields[1..], before + [f], num, raw, rest);
    }
  }

  /** JSON.parse(JSON.stringify(v)) is v, also when backticks were escaped in between. */
  lemma RoundTrip(v: Value, num: Reader, raw: bool)
    requires Proper(v) && Numberless(v)
    ensures Parse(Print(v), num, raw) == Some(v)
    ensures Parse(EscapeTicks(Print(v)), num, raw) == Some(v)
  {
    ParsePrinted(false, v, num, raw, []);
    ParsePrinted(true, v, num, raw, []);
    EscapeTicksPrinted(v, []);
  }

  // ---------------------------------------------------------------- what parsing yields

  /** A parsed object never repeats a key, however often the text does. */
  lemma {:induction false} ParsedProper(t: Text, num: Reader, raw: bool)
    ensures ParseValue(t, num, raw).Some? ==> Proper(ParseValue(t, num, raw).value.0)
    decreases |t|, 2
  {
    var s := SkipSpace(t);
    if s != [] && (s[0] == 0x5B || s[0] == 0x7B) {
      var inner := SkipSpace(s[1..]);
      ParsedItemsProper(inner, num, raw, []);
      ParsedFieldsProper(inner, num, raw, []);
    }
  }

  lemma {:induction false} ParsedItemsProper(t: Text, num: Reader, raw: bool, items: seq<Value>)
    requires forall i :: 0 <= i < |items| ==> Proper(items[i])
    ensures ParseItems(t, num, raw, items).Some? ==> Proper(ParseItems(t, num, raw, items).value.0)
    decreases |t|, 3
  {
    ParsedProper(t, num, raw);
    match ParseValue(t, num, raw) {
      case None =>
      case Some((v, rest)) =>
        var s := SkipSpace(rest);
        if s != [] {
          ParsedItemsProper(s[1..], num, raw, items + [v]);
        }
    }
  }

  lemma {:induction false} ParsedFieldsProper(t: Text, num: Reader, raw: bool, fields: seq<Field>)
    requires DistinctKeys(fields) && ProperFields(fields)
    ensures ParseFields(t, num, raw, fields).Some? ==> Proper(ParseFields(t, num, raw, fields).value.0)
    decreases |t|, 3
  {
    var s := SkipSpace(t);
    if s != [] && s[0] == QUOTE && ParseChars(s[1..], raw).Some? {
      var (key, afterKey) := ParseChars(s[1..], raw).value;
      var colon := SkipSpace(afterKey);
      if colon != [] && colon[0] == 0x3A {
        ParsedProper(colon[1..], num, raw);
        match ParseValue(colon[1..], num, raw) {
          case None =>
          case Some((v, rest)) =>
            var next := SkipSpace(rest);
            if next != [] {
              ParsedFieldsProper(next[1..], num, raw, Put(fields, key, v));
            }
        }
      }
    }
  }
}
