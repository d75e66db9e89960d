/**
 The printed fence: where the scanner finds the end of a block whose JSON has no backticks.

 Printed text is balanced: reading it outside string literals ends outside them again, because
 every quote inside a literal is escaped. It also ends in a character that trimming keeps. So the
 first envelope of a fence around printed text is that fence, its trimmed content is the printed
 text, and by the round trip of the module JsonRoundTrip parsing that content returns the value,
 whatever quotes, backslashes, line ends or backticks its strings contain. Numbers are left out,
 as nothing is printed that holds one.
 */
module PrintedFence {
  import opened Prelude
  import opened Utf16
  import opened Json
  import opened JsonRoundTrip
  import opened AgentJson
  import opened OutputSchema

  // ---------------------------------------------------------------- the printed fence

  lemma {:induction false} EscapeEndsOutside(ticks: bool, s: Text, rest: Text)
    ensures Scan(Inside, EscapeTo(ticks, s, [QUOTE] + rest)) == Scan(Outside, rest)
    decreases |s|
  {
    if s == [] {
      assert ([QUOTE] + rest)[1..] == rest;
    } else if StartsWithPair(s) {
      var tail := EscapeTo(ticks, s[2..], [QUOTE] + rest);
      EscapeEndsOutside(ticks, s[2..], rest);
      assert ([s[1]] + tail)[1..] == tail;
      assert ([s[0]] + ([s[1]] + tail))[1..] == [s[1]] + tail;
    } else {
      var tail := EscapeTo(ticks, s[1..], [QUOTE] + rest);
      EscapeEndsOutside(ticks, s[1..], rest);
      UnitStaysInside(ticks, s[0]);
      ScanConcat(Inside, EscapeUnit(ticks, s[0]), tail);
    }
  }

  lemma UnitStaysInside(ticks: bool, u: Unit)
    ensures Scan(Inside, EscapeUnit(ticks, u)) == Inside
  {
    var e := EscapeUnit(ticks, u);
    if |e| == 6 {
      assert e[1..][1..] == Hex4(u);
      HexInside(Hex4(u));
    } else if |e| == 2 {
      assert e[1..][1..] == [];
      assert Scan(Escaped, e[1..]) == Scan(Inside, e[1..][1..]);
    } else {
      assert e[1..] == [];
    }
  }

  lemma {:induction false} HexInside(t: Text)
    requires forall i :: 0 <= i < |t| ==> t[i] != QUOTE && t[i] != BACKSLASH
    ensures Scan(Inside, t) == Inside
    decreases |t|
  {
    if t != [] {
      HexInside(t[1..]);
    }
  }

  lemma QuoteEndsOutside(ticks: bool, s: Text, rest: Text)
    ensures Scan(Outside, QuoteTo(ticks, s, rest)) == Scan(Outside, rest)
  {
    EscapeEndsOutside(ticks, s, rest);
    assert QuoteTo(ticks, s, rest)[1..] == EscapeTo(ticks, s, [QUOTE] + rest);
  }

  lemma {:induction false} PlainOutside(a: Text, rest: Text)
    requires forall i :: 0 <= i < |a| ==> a[i] != QUOTE
    ensures Scan(Outside, a + rest) == Scan(Outside, rest)
    decreases |a|
  {
    if a == [] {
      assert a + rest == rest;
    } else {
      assert (a + rest)[1..] == a[1..] + rest;
      PlainOutside(a[1..], rest);
    }
  }

  lemma WordsPlain()
    ensures forall i :: 0 <= i < 4 ==> Lit("null")[i] != QUOTE && Lit("true")[i] != QUOTE
    ensures forall i :: 0 <= i < 5 ==> Lit("false")[i] != QUOTE
  {
  }

  /** After a printed value the scanner is outside string literals again. */
  lemma {:induction false} PrintEndsOutside(ticks: bool, v: Value, rest: Text)
    requires Numberless(v)
    ensures Scan(Outside, PrintTo(ticks, v, rest)) == Scan(Outside, rest)
    decreases v, 1
  {
    WordsPlain();
    match v {
      case Null => PlainOutside(Lit("null"), rest);
      case Bool(b) => PlainOutside(if b then Lit("true") else Lit("false"), rest);
      case Str(s) => QuoteEndsOutside(ticks, s, rest);
      case Arr(items) =>
        PlainOutside([0x5B], PrintItemsTo(ticks, items, [0x5D] + rest));
        ItemsEndOutside(ticks, items, [0x5D] + rest);
        PlainOutside([0x5D], rest);
      case Obj(fields) =>
        PlainOutside([0x7B], PrintFieldsTo(ticks, fields, [0x7D] + rest));
        FieldsEndOutside(ticks, fields, [0x7D] + rest);
        PlainOutside([0x7D], rest);
    }
  }

  lemma {:induction false} ItemsEndOutside(ticks: bool, items: seq<Value>, rest: Text)
    requires forall i :: 0 <= i < |items| ==> Numberless(items[i])
    ensures Scan(Outside, PrintItemsTo(ticks, items, rest)) == Scan(Outside, rest)
    decreases items, 0
  {
    if |items| == 1 {
      PrintEndsOutside(ticks, items[0], rest);
    } else if items != [] {
      var next := PrintItemsTo(ticks, items[1..], rest);
      PrintEndsOutside(ticks, items[0], [0x2C] + next);
      PlainOutside([0x2C], next);
      ItemsEndOutside(ticks, items[1..], rest);
    }
  }

  lemma {:induction false} FieldsEndOutside(ticks: bool, fields: seq<Field>, rest: Text)
    requires forall i :: 0 <= i < |fields| ==> Numberless(fields[i].value)
    ensures Scan(Outside, PrintFieldsTo(ticks, fields, rest)) == Scan(Outside, rest)
    decreases fields, 0
  {
    if fields != [] {
      var next := if |fields| == 1 then rest else [0x2C] + PrintFieldsTo(ticks, fields[1..], rest);
      QuoteEndsOutside(ticks, fields[0].key, [0x3A] + PrintTo(ticks, fields[0].value, next));
      PlainOutside([0x3A], PrintTo(ticks, fields[0].value, next));
      PrintEndsOutside(ticks, fields[0].value, next);
      if |fields| > 1 {
        PlainOutside([0x2C], PrintFieldsTo(ticks, fields[1..], rest));
        FieldsEndOutside(ticks, fields[1..], rest);
      }
    }
  }

  predicate EndsWith(t: Text, rest: Text) {
    |rest| <= |t| && t[|t| - |rest|..] == rest
  }

  lemma EndsWithPrefix(a: Text, t: Text, rest: Text)
    requires EndsWith(t, rest)
    ensures EndsWith(a + t, rest)
  {
    assert (a + t)[|a + t| - |rest|..] == t[|t| - |rest|..];
  }

  lemma EndsWithTrans(t: Text, s: Text, rest: Text)
    requires EndsWith(t, s) && EndsWith(s, rest)
    ensures EndsWith(t, rest)
  {
    assert t[|t| - |s|..][|s| - |rest|..] == t[|t| - |rest|..];
  }

  lemma {:induction false} EscapeEnds(ticks: bool, s: Text, rest: Text)
    ensures EndsWith(EscapeTo(ticks, s, rest), rest)
    decreases |s|
  {
    if s == [] {
    } else if StartsWithPair(s) {
      var tail := EscapeTo(ticks, s[2..], rest);
      EscapeEnds(ticks, s[2..], rest);
      EndsWithPrefix([s[1]], tail, rest);
      EndsWithPrefix([s[0]], [s[1]] + tail, rest);
    } else {
      EscapeEnds(ticks, s[1..], rest);
      EndsWithPrefix(EscapeUnit(ticks, s[0]), EscapeTo(ticks, s[1..], rest), rest);
    }
  }

  lemma QuoteEnds(ticks: bool, s: Text, rest: Text)
    ensures EndsWith(QuoteTo(ticks, s, rest), rest)
  {
    EndsWithPrefix([QUOTE], rest, rest);
    EscapeEnds(ticks, s, [QUOTE] + rest);
    EndsWithTrans(EscapeTo(ticks, s, [QUOTE] + rest), [QUOTE] + rest, rest);
    EndsWithPrefix([QUOTE], EscapeTo(ticks, s, [QUOTE] + rest), rest);
  }

  lemma {:induction false} PrintEnds(ticks: bool, v: Value, rest: Text)
    ensures EndsWith(PrintTo(ticks, v, rest), rest)
    decreases v, 1
  {
    match v {
      case Null => EndsWithPrefix(Lit("null"), rest, rest);
      case Bool(b) => EndsWithPrefix(if b then Lit("true") else Lit("false"), rest, rest);
      case Num(n) => EndsWithPrefix(n.text, rest, rest);
      case Str(s) => QuoteEnds(ticks, s, rest);
      case Arr(items) =>
        ItemsEnd(ticks, items, [0x5D] + rest);
        EndsWithPrefix([0x5D], rest, rest);
        EndsWithTrans(PrintItemsTo(ticks, items, [0x5D] + rest), [0x5D] + rest, rest);
        EndsWithPrefix([0x5B], PrintItemsTo(ticks, items, [0x5D] + rest), rest);
      case Obj(fields) =>
        FieldsEnd(ticks, fields, [0x7D] + rest);
        EndsWithPrefix([0x7D], rest, rest);
        EndsWithTrans(PrintFieldsTo(ticks, fields, [0x7D] + rest), [0x7D] + rest, rest);
        EndsWithPrefix([0x7B], PrintFieldsTo(ticks, fields, [0x7D] + rest), rest);
    }
  }

  lemma {:induction false} ItemsEnd(ticks: bool, items: seq<Value>, rest: Text)
    ensures EndsWith(PrintItemsTo(ticks, items, rest), rest)
    decreases items, 0
  {
    if |items| == 1 {
      PrintEnds(ticks, items[0], rest);
    } else if items != [] {
      var next := [0x2C] + PrintItemsTo(ticks, items[1..], rest);
      ItemsEnd(ticks, items[1..], rest);
      EndsWithPrefix([0x2C], PrintItemsTo(ticks, items[1..], rest), rest);
      PrintEnds(ticks, items[0], next);
      EndsWithTrans(PrintItemsTo(ticks, items, rest), next, rest);
    }
  }

  lemma {:induction false} FieldsEnd(ticks: bool, fields: seq<Field>, rest: Text)
    ensures EndsWith(PrintFieldsTo(ticks, fields, rest), rest)
    decreases fields, 0
  {
    if fields != [] {
      var next := if |fields| == 1 then rest else [0x2C] + PrintFieldsTo(ticks, fields[1..], rest);
      if |fields| > 1 {
        FieldsEnd(ticks, fields[1..], rest);
        EndsWithPrefix([0x2C], PrintFieldsTo(ticks, fields[1..], rest), rest);
      }
      var value := PrintTo(ticks, fields[0].value, next);
      PrintEnds(ticks, fields[0].value, next);
      EndsWithTrans(value, next, rest);
      EndsWithPrefix([0x3A], value, rest);
      QuoteEnds(ticks, fields[0].key, [0x3A] + value);
      EndsWithTrans(PrintFieldsTo(ticks, fields, rest), [0x3A] + value, rest);
    }
  }

  /** A tickless text between braces that leaves the scanner outside literals. */
  predicate Fenceable(json: Text) {
    && json != [] && json[0] == 0x7B && json[|json| - 1] == 0x7D
    && Tickless(json) && Scan(Outside, json) == Outside
  }

  function Fenced(json: Text): Text {
    OPENING_LINE + json + CLOSING_LINE
  }

  lemma FencedOpening(json: Text)
    requires Fenceable(json)
    ensures IsFirstOpening(Fenced(json), 0)
    ensures IsContentStart(Fenced(json), 0, |OPENING_LINE|)
  {
    var t := Fenced(json);
    assert |OPENING_LINE| == |OPENING| + 1;
    assert t[0..0 + |OPENING|] == OPENING;
    assert t[|OPENING|] == NEWLINE;
    assert t[|OPENING_LINE|] == json[0];
  }

  lemma FencedClosing(json: Text)
    requires Fenceable(json)
    ensures var t, from, close := Fenced(json), |OPENING_LINE|, |OPENING_LINE| + |json| + 1;
            && IsClosing(t, from, close)
            && t[from..close] == json + [NEWLINE]
            && forall k: nat :: k < close ==> !IsClosing(t, from, k)
  {
    var t, from, close := Fenced(json), |OPENING_LINE|, |OPENING_LINE| + |json| + 1;
    assert t[from..close] == json + [NEWLINE];
    ScanConcat(Outside, json, [NEWLINE]);
    forall k: nat | k < close ensures !IsClosing(t, from, k) {
      if from <= k < close - 1 {
        assert t[k] == json[k - from];
      } else if k == close - 1 {
        assert t[k] == NEWLINE;
      }
    }
  }

  lemma TrimLine(json: Text)
    requires json != [] && !IsSpace(json[0]) && !IsSpace(json[|json| - 1])
    ensures Trim(json + [NEWLINE]) == json
  {
    var line := json + [NEWLINE];
    assert TrimStart(line) == line;
    assert line[..|line| - 1] == json;
    assert IsSpace(line[|line| - 1]);
    assert TrimEnd(json) == json;
  }

  lemma FencedEnvelope(json: Text)
    requires Fenceable(json)
    ensures EnvelopeOf(Fenced(json)) == Some(Envelope(json, 0, |Fenced(json)|))
  {
    var t := Fenced(json);
    FencedOpening(json);
    FencedClosing(json);
    TrimLine(json);
    assert Encloses(t, 0, |OPENING_LINE|, |OPENING_LINE| + |json| + 1);
    assert HasEnvelope(t, Envelope(json, 0, |t|));
    EnvelopeUnique(t, EnvelopeOf(t).value, Envelope(json, 0, |t|));
  }

  lemma PrintedFenceable(fields: seq<Field>)
    requires Numberless(Obj(fields))
    ensures Fenceable(EscapeTicks(Print(Obj(fields))))
  {
    var v := Obj(fields);
    var json := EscapeTicks(Print(v));
    EscapeTicksPrinted(v, []);
    EscapeTicksTickless(Print(v));
    PrintEndsOutside(true, v, []);
    assert [0x7D] + [] == [0x7D];
    var inner := PrintFieldsTo(true, fields, [0x7D]);
    assert json == [0x7B] + inner;
    FieldsEnd(true, fields, [0x7D]);
    assert inner[|inner| - 1..][0] == 0x7D;
  }

  /** Whatever its strings contain, a fenced object is extracted and parsed as itself. */
  lemma {:induction false} FenceRoundTrip(fields: seq<Field>, num: Reader)
    requires Proper(Obj(fields)) && Numberless(Obj(fields))
    ensures var json := EscapeTicks(Print(Obj(fields)));
            && EnvelopeOf(Fenced(json)) == Some(Envelope(json, 0, |Fenced(json)|))
            && json != []
            && Parse(json, num, true) == Some(Obj(fields))
  {
    PrintedFenceable(fields);
    FencedEnvelope(EscapeTicks(Print(Obj(fields))));
    RoundTrip(Obj(fields), num, true);
  }
}
