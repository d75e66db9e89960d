/**
 What the repair of multi-line strings means: parsing the repaired text strictly is the same
 as parsing the original text while reading control characters inside literals as content
 (packages/core/src/json.ts).

 The proof follows the parser: literals first, then white space, numbers and words, which the
 repair leaves alone because they lie outside literals, and then values. Last comes the method
 that tries the text as it is and then repaired.
 */
module JsonRepair {
  import opened Prelude
  import opened Utf16
  import opened Json
  import JsonRoundTrip
  import opened AgentJson

  // ---------------------------------------------------------------- the text itself

  lemma EscapeStaysInside(u: Unit)
    requires u < 0x20
    ensures Scan(Inside, ControlEscape(u)) == Inside
    ensures OutsideText(Inside, ControlEscape(u)) == []
  {
    var e := ControlEscape(u);
    if |e| == 6 {
      PlainInside(Hex4(u));
      assert e[1..][1..] == Hex4(u);
    } else {
      assert e[1..][1..] == [];
      assert Scan(Escaped, e[1..]) == Scan(Inside, e[1..][1..]);
      assert OutsideText(Escaped, e[1..]) == OutsideText(Inside, e[1..][1..]);
    }
  }

  lemma {:induction false} PlainInside(t: Text)
    requires forall i :: 0 <= i < |t| ==> t[i] != QUOTE && t[i] != BACKSLASH
    ensures Scan(Inside, t) == Inside
    ensures OutsideText(Inside, t) == []
    decreases |t|
  {
    if t != [] {
      PlainInside(t[1..]);
    }
  }

  lemma {:induction false} OutsideConcat(m: Mode, a: Text, b: Text)
    ensures OutsideText(m, a + b) == OutsideText(m, a) + OutsideText(Scan(m, a), b)
    decreases |a|
  {
    if a == [] {
      assert a + b == b;
    } else {
      assert (a + b)[1..] == a[1..] + b;
      OutsideConcat(Next(m, a[0]), a[1..], b);
    }
  }

  /** Reading a bare control character, or a line end of two of them, changes nothing. */
  lemma BareStep(t: Text)
    requires t != [] && t[0] < 0x20
    ensures var rest := t[if t[0] == RETURN then LineEnd(t) else 1..];
            Scan(Inside, t) == Scan(Inside, rest) && OutsideText(Inside, t) == OutsideText(Inside, rest)
  {
    if t[0] == RETURN && LineEnd(t) == 2 {
      assert t[1..][1..] == t[2..];
    }
  }

  /**
   The repair leaves everything outside literals alone, and what follows the text is read in
   the same mode as before.
   */
  lemma {:induction false} RepairKeepsOutside(m: Mode, t: Text)
    ensures Scan(m, Repair(m, t)) == Scan(m, t)
    ensures OutsideText(m, Repair(m, t)) == OutsideText(m, t)
    decreases |t|
  {
    if t != [] {
      if IsBare(m, t[0]) {
        var rest := t[if t[0] == RETURN then LineEnd(t) else 1..];
        RepairKeepsOutside(Inside, rest);
        EscapeStaysInside(t[0]);
        BareStep(t);
        ScanConcat(Inside, ControlEscape(t[0]), Repair(Inside, rest));
        OutsideConcat(Inside, ControlEscape(t[0]), Repair(Inside, rest));
      } else {
        var rest := Repair(Next(m, t[0]), t[1..]);
        RepairKeepsOutside(Next(m, t[0]), t[1..]);
        assert ([t[0]] + rest)[1..] == rest;
      }
    }
  }

  /** The control characters read right after a backslash. */
  function EscapedControls(m: Mode, t: Text): Text
    decreases |t|
  {
    if t == [] then []
    else (if m == Escaped && t[0] < 0x20 then [t[0]] else []) + EscapedControls(Next(m, t[0]), t[1..])
  }

  lemma {:induction false} NoEscapedControls(m: Mode, t: Text)
    requires forall i :: 0 <= i < |t| ==> t[i] >= 0x20
    ensures EscapedControls(m, t) == []
    decreases |t|
  {
    if t != [] {
      NoEscapedControls(Next(m, t[0]), t[1..]);
    }
  }

  lemma {:induction false} EscapedConcat(m: Mode, a: Text, b: Text)
    ensures EscapedControls(m, a + b) == EscapedControls(m, a) + EscapedControls(Scan(m, a), b)
    decreases |a|
  {
    if a == [] {
      assert a + b == b;
    } else {
      var next := Next(m, a[0]);
      hide Next;
      var more := a + b;
      assert more[1..] == a[1..] + b;
      EscapedConcat(next, a[1..], b);
      assert EscapedControls(m, more) == (if m == Escaped && a[0] < 0x20 then [a[0]] else []) + EscapedControls(next, more[1..]);
    }
  }

  /** It keeps every control character that a backslash escapes, in order, and adds none. */
  lemma {:induction false} RepairKeepsEscaped(m: Mode, t: Text)
    ensures EscapedControls(m, Repair(m, t)) == EscapedControls(m, t)
    decreases |t|
  {
    if t != [] {
      if IsBare(m, t[0]) {
        var rest := t[if t[0] == RETURN then LineEnd(t) else 1..];
        RepairKeepsEscaped(Inside, rest);
        EscapeStaysInside(t[0]);
        NoEscapedControls(Inside, ControlEscape(t[0]));
        EscapedConcat(Inside, ControlEscape(t[0]), Repair(Inside, rest));
        BareStepEscaped(t);
      } else {
        var rest := Repair(Next(m, t[0]), t[1..]);
        RepairKeepsEscaped(Next(m, t[0]), t[1..]);
        assert ([t[0]] + rest)[1..] == rest;
      }
    }
  }

  lemma BareStepEscaped(t: Text)
    requires t != [] && t[0] < 0x20
    ensures EscapedControls(Inside, t) == EscapedControls(Inside, t[if t[0] == RETURN then LineEnd(t) else 1..])
  {
    if t[0] == RETURN && LineEnd(t) == 2 {
      assert t[1..][1..] == t[2..];
    }
  }

  lemma {:induction false} CleanConcat(m: Mode, a: Text, b: Text)
    requires Clean(m, a) && Clean(Scan(m, a), b)
    ensures Clean(m, a + b)
    decreases |a|
  {
    if a == [] {
      assert a + b == b;
    } else {
      assert (a + b)[1..] == a[1..] + b;
      CleanConcat(Next(m, a[0]), a[1..], b);
    }
  }

  lemma {:induction false} PrintableClean(m: Mode, t: Text)
    requires forall i :: 0 <= i < |t| ==> t[i] >= 0x20
    ensures Clean(m, t)
    decreases |t|
  {
    if t != [] {
      PrintableClean(Next(m, t[0]), t[1..]);
    }
  }

  /** After the repair no literal holds an unescaped control character. */
  lemma {:induction false} RepairClean(m: Mode, t: Text)
    ensures Clean(m, Repair(m, t))
    decreases |t|
  {
    if t != [] {
      if IsBare(m, t[0]) {
        var rest := t[if t[0] == RETURN then LineEnd(t) else 1..];
        RepairClean(Inside, rest);
        EscapeStaysInside(t[0]);
        PrintableClean(Inside, ControlEscape(t[0]));
        CleanConcat(Inside, ControlEscape(t[0]), Repair(Inside, rest));
      } else {
        var rest := Repair(Next(m, t[0]), t[1..]);
        RepairClean(Next(m, t[0]), t[1..]);
        assert ([t[0]] + rest)[1..] == rest;
      }
    }
  }

  lemma {:induction false} CleanUnchanged(m: Mode, t: Text)
    requires Clean(m, t)
    ensures Repair(m, t) == t
    decreases |t|
  {
    if t != [] {
      CleanUnchanged(Next(m, t[0]), t[1..]);
    }
  }

  /** The repair is the identity on exactly the texts without such characters. */
  lemma RepairIdentity(m: Mode, t: Text)
    ensures Repair(m, t) == t <==> Clean(m, t)
  {
    RepairClean(m, t);
    if Clean(m, t) {
      CleanUnchanged(m, t);
    }
  }

  lemma RepairIdempotent(m: Mode, t: Text)
    ensures Repair(m, Repair(m, t)) == Repair(m, t)
  {
    RepairClean(m, t);
    CleanUnchanged(m, Repair(m, t));
  }

  // ---------------------------------------------------------------- literals

  function Repaired<T>(r: Option<(T, Text)>): Option<(T, Text)> {
    match r
    case None => None
    case Some((v, rest)) => Some((v, Repair(Outside, rest)))
  }

  predicate HexRun(t: Text, n: nat) {
    n == 0 || (t != [] && HexValue(t[0]).Some? && HexRun(t[1..], n - 1))
  }

  lemma ParseHexIsRun(t: Text)
    ensures ParseHex4(t).Some? <==> HexRun(t, 4)
    ensures HexRun(t, 4) ==> |t| >= 4
  {
    if |t| >= 1 {
      var t1 := t[1..];
      if |t| >= 2 {
        var t2 := t1[1..];
        assert t1[0] == t[1];
        if |t| >= 3 {
          var t3 := t2[1..];
          assert t2[0] == t[2];
          if |t| >= 4 {
            assert t3[0] == t[3];
            assert HexRun(t3, 1) == HexValue(t[3]).Some?;
          }
          assert HexRun(t2, 2) == (HexValue(t[2]).Some? && HexRun(t3, 1));
        }
        assert HexRun(t1, 3) == (HexValue(t[1]).Some? && HexRun(t2, 2));
      }
      assert HexRun(t, 4) == (HexValue(t[0]).Some? && HexRun(t1, 3));
    }
  }

  /** Inside a literal a hexadecimal digit is kept, and nothing else becomes one. */
  lemma FirstRepaired(t: Text)
    requires t != []
    ensures var r := Repair(Inside, t);
            && r != [] && (HexValue(r[0]).Some? <==> HexValue(t[0]).Some?)
            && (HexValue(t[0]).Some? ==> r == [t[0]] + Repair(Inside, t[1..]) && r[1..] == Repair(Inside, t[1..]))
  {
  }

  lemma {:induction false} HexRunRepaired(t: Text, n: nat)
    ensures HexRun(Repair(Inside, t), n) <==> HexRun(t, n)
    decreases n
  {
    if n > 0 && t != [] {
      FirstRepaired(t);
      hide Repair, HexValue;
      HexRunRepaired(t[1..], n - 1);
    }
  }

  lemma {:induction false} HexRunFront(t: Text, n: nat)
    requires HexRun(t, n)
    ensures n <= |t| && n <= |Repair(Inside, t)|
    ensures Repair(Inside, t)[..n] == t[..n] && Repair(Inside, t)[n..] == Repair(Inside, t[n..])
    decreases n
  {
    if n == 0 {
      assert t[0..] == t;
    } else {
      FirstRepaired(t);
      hide Repair, HexValue;
      HexRunFront(t[1..], n - 1);
      assert t[1..][n - 1..] == t[n..];
      var r := Repair(Inside, t);
      assert r[1..][n - 1..] == r[n..];
      assert r[..n] == [r[0]] + r[1..][..n - 1] && t[..n] == [t[0]] + t[1..][..n - 1];
    }
  }

  lemma HexRepaired(t: Text)
    ensures ParseHex4(Repair(Inside, t)) == ParseHex4(t)
    ensures ParseHex4(t).Some? ==> |t| >= 4 && |Repair(Inside, t)| >= 4 && Repair(Inside, t)[4..] == Repair(Inside, t[4..])
  {
    ParseHexIsRun(t);
    ParseHexIsRun(Repair(Inside, t));
    HexRunRepaired(t, 4);
    if HexRun(t, 4) {
      HexRunFront(t, 4);
      var r := Repair(Inside, t);
      assert forall i :: 0 <= i < 4 ==> r[i] == r[..4][i] && t[i] == t[..4][i];
      hide Repair;
    }
  }

  lemma ParseControlEscape(u: Unit, rest: Text)
    requires u < 0x20
    ensures ParseChars(ControlEscape(u) + rest, false) ==
            Prepend(if u == RETURN then NEWLINE else u, ParseChars(rest, false))
  {
    var t := ControlEscape(u) + rest;
    if |ControlEscape(u)| == 6 {
      JsonRoundTrip.ParseUnicodeEscape(false, u, rest);
    } else {
      assert t[2..] == rest;
    }
  }

  lemma {:induction false} CharsRepaired(t: Text)
    ensures ParseChars(Repair(Inside, t), false) == Repaired(ParseChars(t, true))
    decreases |t|
  {
    var r := Repair(Inside, t);
    if t == [] {
    } else if t[0] < 0x20 {
      var rest := t[if t[0] == RETURN then LineEnd(t) else 1..];
      CharsRepaired(rest);
      ParseControlEscape(t[0], Repair(Inside, rest));
    } else if t[0] == QUOTE {
      assert r[1..] == Repair(Outside, t[1..]);
    } else if t[0] != BACKSLASH {
      CharsRepaired(t[1..]);
      assert r[1..] == Repair(Inside, t[1..]);
    } else if |t| == 1 {
      assert t[1..] == [];
    } else {
      EscapeRepaired(t);
    }
  }

  /** The case of a backslash with something after it. */
  lemma {:induction false} EscapeRepaired(t: Text)
    requires |t| >= 2 && t[0] == BACKSLASH
    ensures ParseChars(Repair(Inside, t), false) == Repaired(ParseChars(t, true))
    decreases |t|, 0
  {
    var r := Repair(Inside, t);
    var tail := Repair(Inside, t[2..]);
    var after := t[1..];
    assert after[0] == t[1] && after[1..] == t[2..];
    assert Repair(Escaped, after) == [after[0]] + tail;
    assert r == [t[0]] + ([t[1]] + tail);
    assert r[1] == t[1] && r[2..] == tail;
    if SimpleEscape(t[1]).Some? {
      CharsRepaired(t[2..]);
    } else if t[1] == 0x75 {
      HexRepaired(t[2..]);
      if ParseHex4(t[2..]).Some? {
        assert t[2..][4..] == t[6..];
        assert r[6..] == tail[4..];
        CharsRepaired(t[6..]);
      }
    }
  }

  // ---------------------------------------------------------------- values

  lemma OutsideHead(t: Text)
    requires t != []
    ensures var r := Repair(Outside, t);
            r != [] && r[0] == t[0] && r[1..] == Repair(if t[0] == QUOTE then Inside else Outside, t[1..])
  {
  }

  lemma {:induction false} SpaceRepaired(t: Text)
    ensures SkipSpace(Repair(Outside, t)) == Repair(Outside, SkipSpace(t))
    decreases |t|
  {
    if t != [] {
      OutsideHead(t);
      if IsJsonSpace(t[0]) {
        SpaceRepaired(t[1..]);
      }
    }
  }

  /** A quote-free front is copied. */
  lemma {:induction false} FrontRepaired(a: Text, b: Text)
    requires forall i :: 0 <= i < |a| ==> a[i] != QUOTE
    ensures Repair(Outside, a + b) == a + Repair(Outside, b)
    decreases |a|
  {
    if a == [] {
      assert a + b == b;
    } else {
      OutsideHead(a + b);
      assert (a + b)[1..] == a[1..] + b;
      FrontRepaired(a[1..], b);
      assert [a[0]] + (a[1..] + Repair(Outside, b)) == a + Repair(Outside, b);
    }
  }

  /** Length of the longest front without a quote. */
  function QuoteFree(t: Text): (n: nat)
    ensures n <= |t|
    ensures forall i :: 0 <= i < n ==> t[i] != QUOTE
    ensures n < |t| ==> t[n] == QUOTE
  {
    if t == [] || t[0] == QUOTE then 0 else 1 + QuoteFree(t[1..])
  }

  predicate Delimited(b: Text) {
    b == [] || b[0] == QUOTE
  }

  lemma SplitRepaired(t: Text)
    ensures var n := QuoteFree(t);
            && t == t[..n] + t[n..]
            && Repair(Outside, t) == t[..n] + Repair(Outside, t[n..])
            && Delimited(t[n..]) && Delimited(Repair(Outside, t[n..]))
  {
    var n := QuoteFree(t);
    FrontRepaired(t[..n], t[n..]);
    hide Repair, QuoteFree;
    assert t == t[..n] + t[n..];
    if n < |t| {
      OutsideHead(t[n..]);
    }
  }

  lemma {:induction false} DigitsDelimited(a: Text, b: Text)
    requires Delimited(b)
    ensures Digits(a + b) == Digits(a)
    decreases |a|
  {
    if a == [] {
      assert a + b == b;
    } else {
      assert (a + b)[1..] == a[1..] + b;
      DigitsDelimited(a[1..], b);
    }
  }

  lemma DigitsFrom(a: Text, b: Text, i: nat)
    requires Delimited(b) && i <= |a|
    ensures Digits((a + b)[i..]) == Digits(a[i..])
  {
    assert (a + b)[i..] == a[i..] + b;
    DigitsDelimited(a[i..], b);
  }

  lemma FractionDelimited(a: Text, b: Text, i: nat)
    requires Delimited(b) && i <= |a|
    ensures FractionEnd(a + b, i) == FractionEnd(a, i) <= |a|
  {
    if i < |a| {
      DigitsFrom(a, b, i + 1);
    } else if b != [] {
      assert (a + b)[i] == b[0];
    }
  }

  lemma ExponentDelimited(a: Text, b: Text, i: nat)
    requires Delimited(b) && i <= |a|
    ensures ExponentEnd(a + b, i) == ExponentEnd(a, i) <= |a|
  {
    if i < |a| {
      DigitsFrom(a, b, i + 1);
      if i + 1 < |a| {
        DigitsFrom(a, b, i + 2);
      } else if b != [] {
        assert (a + b)[i + 1] == b[0];
      }
    } else if b != [] {
      assert (a + b)[i] == b[0];
    }
  }

  /** A number token ends before a quote. */
  lemma NumberDelimited(a: Text, b: Text)
    requires Delimited(b)
    ensures NumberLength(a + b) == NumberLength(a)
  {
    if a == [] {
      assert a + b == b;
      DigitsDelimited(a, b);
      assert (a + b)[0..] == b;
    } else {
      DigitsFrom(a, b, 0);
      DigitsFrom(a, b, 1);
      if |a| == 1 && b != [] {
        assert (a + b)[1] == b[0];
      }
      assert WholeEnd(a + b) == WholeEnd(a);
    }
    FractionDelimited(a, b, WholeEnd(a));
    ExponentDelimited(a, b, FractionEnd(a, WholeEnd(a)));
  }

  lemma WordDelimited(a: Text, b: Text, w: Text)
    requires Delimited(b)
    requires forall i :: 0 <= i < |w| ==> w[i] != QUOTE
    ensures StartsWith(a + b, w) <==> StartsWith(a, w)
  {
    var t := a + b;
    if StartsWith(t, w) {
      forall i | 0 <= i < |w| ensures t[i] != QUOTE {
        assert t[..|w|][i] == t[i];
      }
      assert b != [] ==> t[|a|] == QUOTE;
      assert a[..|w|] == t[..|w|];
    }
    if StartsWith(a, w) {
      assert a[..|w|] == t[..|w|];
    }
  }

  /** A front of a text that ends before its first quote. */
  lemma FrontOf(t: Text, n: nat)
    requires n <= QuoteFree(t)
    ensures var r := Repair(Outside, t);
            n <= |r| && r[..n] == t[..n] && r[n..] == Repair(Outside, t[n..])
  {
    FrontRepaired(t[..n], t[n..]);
    assert t == t[..n] + t[n..];
  }

  lemma NumberRepaired(t: Text)
    ensures NumberLength(Repair(Outside, t)) == NumberLength(t) <= QuoteFree(t)
  {
    var k := QuoteFree(t);
    SplitRepaired(t);
    NumberDelimited(t[..k], t[k..]);
    NumberDelimited(t[..k], Repair(Outside, t[k..]));
  }

  lemma WordRepaired(t: Text, w: Text)
    requires forall i :: 0 <= i < |w| ==> w[i] != QUOTE
    ensures StartsWith(Repair(Outside, t), w) <==> StartsWith(t, w)
    ensures StartsWith(t, w) ==> |w| <= QuoteFree(t)
  {
    var k := QuoteFree(t);
    SplitRepaired(t);
    WordDelimited(t[..k], t[k..], w);
    WordDelimited(t[..k], Repair(Outside, t[k..]), w);
  }

  lemma WordsPlain()
    ensures forall i :: 0 <= i < 4 ==> Lit("null")[i] != QUOTE && Lit("true")[i] != QUOTE
    ensures forall i :: 0 <= i < 5 ==> Lit("false")[i] != QUOTE
  {
  }

  lemma AtomRepaired(s: Text, num: Reader)
    ensures ParseAtom(Repair(Outside, s), num) == Repaired(ParseAtom(s, num))
  {
    WordsPlain();
    WordRepaired(s, Lit("null"));
    WordRepaired(s, Lit("true"));
    WordRepaired(s, Lit("false"));
    NumberRepaired(s);
    if StartsWith(s, Lit("null")) || StartsWith(s, Lit("true")) {
      FrontOf(s, 4);
    } else if StartsWith(s, Lit("false")) {
      FrontOf(s, 5);
    } else {
      FrontOf(s, NumberLength(s));
    }
  }

  lemma {:induction false} ValueRepaired(t: Text, num: Reader)
    ensures ParseValue(Repair(Outside, t), num, false) == Repaired(ParseValue(t, num, true))
    decreases |t|, 2
  {
    SpaceRepaired(t);
    var s := SkipSpace(t);
    if s != [] {
      OutsideHead(s);
      if s[0] == QUOTE {
        CharsRepaired(s[1..]);
      } else if s[0] == 0x5B || s[0] == 0x7B {
        OpenedRepaired(s, num);
      } else {
        AtomRepaired(s, num);
      }
    }
  }

  lemma {:induction false} OpenedRepaired(s: Text, num: Reader)
    requires s != [] && SkipSpace(s) == s && SkipSpace(Repair(Outside, s)) == Repair(Outside, s)
    requires s[0] == 0x5B || s[0] == 0x7B
    ensures ParseValue(Repair(Outside, s), num, false) == Repaired(ParseValue(s, num, true))
    decreases |s|, 1
  {
    OutsideHead(s);
    SpaceRepaired(s[1..]);
    var inner := SkipSpace(s[1..]);
    if inner != [] {
      OutsideHead(inner);
    }
    if s[0] == 0x5B {
      ItemsRepaired(inner, num, []);
    } else {
      FieldsRepaired(inner, num, []);
    }
  }

  lemma {:induction false} ItemsRepaired(t: Text, num: Reader, items: seq<Value>)
    ensures ParseItems(Repair(Outside, t), num, false, items) == Repaired(ParseItems(t, num, true, items))
    decreases |t|, 3
  {
    ValueRepaired(t, num);
    match ParseValue(t, num, true) {
      case None =>
      case Some((v, rest)) =>
        SpaceRepaired(rest);
        var s := SkipSpace(rest);
        if s != [] {
          OutsideHead(s);
          ItemsRepaired(s[1..], num, items + [v]);
        }
    }
  }

  lemma {:induction false} FieldsRepaired(t: Text, num: Reader, fields: seq<Field>)
    ensures ParseFields(Repair(Outside, t), num, false, fields) == Repaired(ParseFields(t, num, true, fields))
    decreases |t|, 3
  {
    SpaceRepaired(t);
    var s := SkipSpace(t);
    if s != [] && s[0] == QUOTE {
      OutsideHead(s);
      CharsRepaired(s[1..]);
      match ParseChars(s[1..], true) {
        case None =>
        case Some((key, afterKey)) =>
          SpaceRepaired(afterKey);
          var colon := SkipSpace(afterKey);
          if colon != [] && colon[0] == 0x3A {
            OutsideHead(colon);
            ValueRepaired(colon[1..], num);
            FieldTailRepaired(colon[1..], num, fields, key);
          }
      }
    }
  }

  lemma {:induction false} FieldTailRepaired(t: Text, num: Reader, fields: seq<Field>, key: Text)
    ensures match ParseValue(t, num, true)
            case None => true
            case Some((v, rest)) =>
              var next := SkipSpace(rest);
              && SkipSpace(Repair(Outside, rest)) == Repair(Outside, next)
              && (next != [] ==>
                  && Repair(Outside, next) != []
                  && Repair(Outside, next)[0] == next[0]
                  && (next[0] != QUOTE ==> Repair(Outside, next)[1..] == Repair(Outside, next[1..]))
                  && ParseFields(Repair(Outside, next[1..]), num, false, Put(fields, key, v)) ==
                     Repaired(ParseFields(next[1..], num, true, Put(fields, key, v))))
    decreases |t|, 4
  {
    match ParseValue(t, num, true) {
      case None =>
      case Some((v, rest)) =>
        SpaceRepaired(rest);
        var next := SkipSpace(rest);
        if next != [] {
          OutsideHead(next);
          FieldsRepaired(next[1..], num, Put(fields, key, v));
        }
    }
  }

  /** Strict parsing of the repaired text is lenient parsing of the original. */
  lemma RepairIsLenientParse(t: Text, num: Reader)
    ensures Parse(Repair(Outside, t), num, false) == Parse(t, num, true)
  {
    ValueRepaired(t, num);
    match ParseValue(t, num, true) {
      case None =>
      case Some((v, rest)) =>
        SpaceRepaired(rest);
        if SkipSpace(rest) != [] {
          OutsideHead(SkipSpace(rest));
        }
    }
  }

  // ---------------------------------------------------------------- the two attempts

  lemma {:induction false} StrictChars(t: Text)
    ensures ParseChars(t, false).Some? ==> ParseChars(t, true) == ParseChars(t, false)
    decreases |t|
  {
    if t != [] && t[0] != QUOTE && t[0] >= 0x20 {
      if t[0] != BACKSLASH {
        StrictChars(t[1..]);
      } else if |t| >= 2 && SimpleEscape(t[1]).Some? {
        StrictChars(t[2..]);
      } else if |t| >= 6 {
        StrictChars(t[6..]);
      }
    }
  }

  lemma {:induction false} StrictValue(t: Text, num: Reader)
    ensures ParseValue(t, num, false).Some? ==> ParseValue(t, num, true) == ParseValue(t, num, false)
    decreases |t|, 2
  {
    var s := SkipSpace(t);
    if s != [] {
      if s[0] == QUOTE {
        StrictChars(s[1..]);
      } else if s[0] == 0x5B || s[0] == 0x7B {
        var inner := SkipSpace(s[1..]);
        StrictItems(inner, num, []);
        StrictFields(inner, num, []);
      }
    }
  }

  lemma {:induction false} StrictItems(t: Text, num: Reader, items: seq<Value>)
    ensures ParseItems(t, num, false, items).Some? ==> ParseItems(t, num, true, items) == ParseItems(t, num, false, items)
    decreases |t|, 3
  {
    StrictValue(t, num);
    match ParseValue(t, num, false) {
      case None =>
      case Some((v, rest)) =>
        var s := SkipSpace(rest);
        if s != [] {
          StrictItems(s[1..], num, items + [v]);
        }
    }
  }

  lemma {:induction false} StrictFields(t: Text, num: Reader, fields: seq<Field>)
    ensures ParseFields(t, num, false, fields).Some? ==> ParseFields(t, num, true, fields) == ParseFields(t, num, false, fields)
    decreases |t|, 3
  {
    var s := SkipSpace(t);
    if s != [] && s[0] == QUOTE {
      StrictChars(s[1..]);
      match ParseChars(s[1..], false) {
        case None =>
        case Some((key, afterKey)) =>
          var colon := SkipSpace(afterKey);
          if colon != [] {
            StrictValue(colon[1..], num);
            match ParseValue(colon[1..], num, false) {
              case None =>
              case Some((v, rest)) =>
                var next := SkipSpace(rest);
                if next != [] {
                  StrictFields(next[1..], num, Put(fields, key, v));
                }
            }
          }
      }
    }
  }

  /** Whatever strict parsing accepts, lenient parsing reads the same way. */
  lemma StrictIsLenient(t: Text, num: Reader)
    ensures Parse(t, num, false).Some? ==> Parse(t, num, true) == Parse(t, num, false)
  {
    StrictValue(t, num);
  }

  /** Trying the text as it is and then repaired amounts to one lenient parse. */
  method ParseJsonAllowingMultilineStrings(raw: Text, num: Reader) returns (r: Option<Value>)
    ensures r == Parse(raw, num, true)
  {
    StrictIsLenient(raw, num);
    RepairIsLenientParse(raw, num);
    r := Parse(raw, num, false);
    if r.None? {
      var repaired := EscapeControlCharsInsideJsonStrings(raw);
      if repaired == raw {
        return None;
      }
      r := Parse(repaired, num, false);
    }
  }
}
