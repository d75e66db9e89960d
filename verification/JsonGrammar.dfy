/**
 The parser accepts the grammar of sections 2 to 7 of RFC 8259 and nothing else.

 A document is a tree that keeps every unit of its text: white space, escapes and digits. Reading
 its text gives back its value, and whatever is read is the text of some document.
 */
module JsonGrammar {
  import opened Prelude
  import opened Utf16
  import opened Json

  // ---------------------------------------------------------------- documents

  /** A character of a string: itself, after a backslash, or by four hexadecimal digits. */
  datatype Piece = Plain(u: Unit) | Simple(letter: Unit, u: Unit) | Coded(h: Text, digits: seq<int>)

  /** Sign, whole part, fraction with its point, and exponent with its letter. */
  datatype NumberText = NumberText(minus: bool, whole: Text, fraction: Text, exponent: Text)

  datatype Document =
    | NullWord
    | BoolWord(b: bool)
    | Number(n: NumberText)
    | StringOf(pieces: seq<Piece>)
    | ArrayOf(gap: Text, items: seq<Item>)
    | ObjectOf(gap: Text, members: seq<Member>)

  datatype Item = Item(before: Text, doc: Document, after: Text)

  datatype Member = Member(before: Text, key: seq<Piece>, between: Text, item: Item)

  predicate Spaces(t: Text) {
    forall i :: 0 <= i < |t| ==> t[i] == 0x20 || t[i] == 0x09 || t[i] == 0x0A || t[i] == 0x0D
  }

  predicate AllDigits(t: Text) {
    forall i :: 0 <= i < |t| ==> 0x30 <= t[i] <= 0x39
  }

  /** The letter after a backslash, and what it stands for. */
  predicate Stands(letter: Unit, u: Unit) {
    || (letter == 0x22 && u == 0x22) || (letter == 0x5C && u == 0x5C) || (letter == 0x2F && u == 0x2F)
    || (letter == 0x62 && u == 0x08) || (letter == 0x66 && u == 0x0C) || (letter == 0x6E && u == 0x0A)
    || (letter == 0x72 && u == 0x0D) || (letter == 0x74 && u == 0x09)
  }

  predicate HexOf(u: Unit, d: int) {
    (0 <= d < 10 && u == 0x30 + d) || (10 <= d < 16 && (u == 0x41 + d - 10 || u == 0x61 + d - 10))
  }

  predicate PieceFine(p: Piece) {
    match p
    case Plain(u) => u >= 0x20 && u != 0x22 && u != 0x5C
    case Simple(letter, u) => Stands(letter, u)
    case Coded(h, digits) => |h| == 4 && |digits| == 4 && forall i :: 0 <= i < 4 ==> HexOf(h[i], digits[i])
  }

  predicate PiecesFine(ps: seq<Piece>) {
    forall i :: 0 <= i < |ps| ==> PieceFine(ps[i])
  }

  predicate NumberFine(n: NumberText) {
    && n.whole != [] && AllDigits(n.whole) && (|n.whole| > 1 ==> n.whole[0] != 0x30)
    && FractionFine(n.fraction) && ExponentFine(n.exponent)
  }

  predicate FractionFine(f: Text) {
    f != [] ==> |f| > 1 && f[0] == 0x2E && AllDigits(f[1..])
  }

  /** Where the digits of an exponent begin: after its letter, and after a sign if there is one. */
  function SignEnd(e: Text): (k: nat)
    requires e != []
    ensures k <= |e|
  {
    if |e| > 1 && (e[1] == 0x2B || e[1] == 0x2D) then 2 else 1
  }

  predicate ExponentFine(e: Text) {
    e != [] ==> (e[0] == 0x65 || e[0] == 0x45) && SignEnd(e) < |e| && AllDigits(e[SignEnd(e)..])
  }

  predicate Fine(d: Document)
    decreases d
  {
    match d
    case Number(n) => NumberFine(n)
    case StringOf(pieces) => PiecesFine(pieces)
    case ArrayOf(gap, items) => Spaces(gap) && forall i :: 0 <= i < |items| ==> ItemFine(items[i])
    case ObjectOf(gap, members) => Spaces(gap) && forall i :: 0 <= i < |members| ==> MemberFine(members[i])
    case _ => true
  }

  predicate ItemFine(i: Item)
    decreases i
  {
    Spaces(i.before) && Spaces(i.after) && Fine(i.doc)
  }

  predicate MemberFine(m: Member)
    decreases m
  {
    Spaces(m.before) && PiecesFine(m.key) && Spaces(m.between) && ItemFine(m.item)
  }

  // ---------------------------------------------------------------- their text and their value

  function PieceText(p: Piece): Text {
    match p
    case Plain(u) => [u]
    case Simple(letter, _) => [0x5C, letter]
    case Coded(h, _) => [0x5C, 0x75] + h
  }

  predicate FourDigits(ds: seq<int>) {
    |ds| == 4 && 0 <= ds[0] < 16 && 0 <= ds[1] < 16 && 0 <= ds[2] < 16 && 0 <= ds[3] < 16
  }

  function PieceUnit(p: Piece): Unit {
    match p
    case Plain(u) => u
    case Simple(_, u) => u
    case Coded(_, ds) => if FourDigits(ds) then ds[0] * 4096 + ds[1] * 256 + ds[2] * 16 + ds[3] else 0
  }

  function PiecesText(ps: seq<Piece>): Text {
    if ps == [] then [] else PieceText(ps[0]) + PiecesText(ps[1..])
  }

  function Content(ps: seq<Piece>): Text {
    if ps == [] then [] else [PieceUnit(ps[0])] + Content(ps[1..])
  }

  function Token(n: NumberText): Text {
    (if n.minus then [0x2D] else []) + n.whole + n.fraction + n.exponent
  }

  function Quoted(ps: seq<Piece>): Text {
    [0x22] + PiecesText(ps) + [0x22]
  }

  function DocText(d: Document): Text
    decreases d, 1
  {
    match d
    case NullWord => Lit("null")
    case BoolWord(b) => if b then Lit("true") else Lit("false")
    case Number(n) => Token(n)
    case StringOf(pieces) => Quoted(pieces)
    case ArrayOf(gap, items) => [0x5B] + (if items == [] then gap else ItemsText(items)) + [0x5D]
    case ObjectOf(gap, members) => [0x7B] + (if members == [] then gap else MembersText(members)) + [0x7D]
  }

  function ItemText(i: Item): Text
    decreases i, 1
  {
    i.before + DocText(i.doc) + i.after
  }

  function ItemsText(items: seq<Item>): Text
    requires items != []
    decreases items, 0
  {
    if |items| == 1 then ItemText(items[0]) else ItemText(items[0]) + [0x2C] + ItemsText(items[1..])
  }

  function MemberText(m: Member): Text
    decreases m, 1
  {
    m.before + Quoted(m.key) + m.between + [0x3A] + ItemText(m.item)
  }

  function MembersText(members: seq<Member>): Text
    requires members != []
    decreases members, 0
  {
    if |members| == 1 then MemberText(members[0]) else MemberText(members[0]) + [0x2C] + MembersText(members[1..])
  }

  function ValueOf(d: Document, num: Reader): Value
    decreases d, 1
  {
    match d
    case NullWord => Null
    case BoolWord(b) => Bool(b)
    case Number(n) => Num(num(Token(n)))
    case StringOf(pieces) => Str(Content(pieces))
    case ArrayOf(_, items) => Arr(ValuesOf(items, num))
    case ObjectOf(_, members) => Obj(FieldsOf([], members, num))
  }

  function ValuesOf(items: seq<Item>, num: Reader): seq<Value>
    decreases items, 0
  {
    if items == [] then [] else [ValueOf(items[0].doc, num)] + ValuesOf(items[1..], num)
  }

  /** Members one after the other; a repeated key overwrites. */
  function FieldsOf(fields: seq<Field>, members: seq<Member>, num: Reader): seq<Field>
    decreases members, 0
  {
    if members == [] then fields
    else FieldsOf(Put(fields, Content(members[0].key), ValueOf(members[0].item.doc, num)), members[1..], num)
  }

  // ---------------------------------------------------------------- strings

  lemma HexExact(u: Unit, d: int)
    ensures HexValue(u) == Some(d) <==> HexOf(u, d)
  {
  }

  lemma EscapeExact(letter: Unit, u: Unit)
    ensures SimpleEscape(letter) == Some(u) <==> Stands(letter, u)
  {
  }

  /** One piece is read back as its unit. */
  lemma PieceParsed(p: Piece, rest: Text)
    requires PieceFine(p)
    ensures ParseChars(PieceText(p) + rest, false) == Prepend(PieceUnit(p), ParseChars(rest, false))
  {
    var t := PieceText(p) + rest;
    match p
    case Plain(u) => assert t[1..] == rest;
    case Simple(letter, u) =>
      EscapeExact(letter, u);
      assert t[2..] == rest;
    case Coded(h, ds) =>
      assert HexOf(h[0], ds[0]) && HexOf(h[1], ds[1]) && HexOf(h[2], ds[2]) && HexOf(h[3], ds[3]);
      HexExact(h[0], ds[0]);
      HexExact(h[1], ds[1]);
      HexExact(h[2], ds[2]);
      HexExact(h[3], ds[3]);
      assert t[2..] == h + rest && t[6..] == rest;
      assert t[0] == 0x5C && t[1] == 0x75;
  }

  lemma {:induction false} StringParsed(ps: seq<Piece>, rest: Text)
    requires PiecesFine(ps)
    ensures ParseChars(PiecesText(ps) + [0x22] + rest, false) == Some((Content(ps), rest))
    decreases |ps|
  {
    if ps == [] {
      assert PiecesText(ps) + [0x22] + rest == [0x22] + rest;
      assert ([0x22] + rest)[1..] == rest;
    } else {
      StringParsed(ps[1..], rest);
      hide ParseChars;
      var after := PiecesText(ps[1..]) + [0x22] + rest;
      assert PiecesText(ps) + [0x22] + rest == PieceText(ps[0]) + after;
      PieceParsed(ps[0], after);
    }
  }

  /** What is read first, short of a closing quote, is a piece. */
  lemma PieceSound(t: Text) returns (p: Piece, rest: Text)
    requires ParseChars(t, false).Some? && t[0] != QUOTE
    ensures PieceFine(p) && t == PieceText(p) + rest && |rest| < |t|
    ensures ParseChars(t, false) == Prepend(PieceUnit(p), ParseChars(rest, false))
  {
    if t[0] != BACKSLASH {
      p, rest := Plain(t[0]), t[1..];
    } else if SimpleEscape(t[1]).Some? {
      p, rest := Simple(t[1], SimpleEscape(t[1]).value), t[2..];
      EscapeExact(t[1], p.u);
    } else {
      p, rest := CodedAt(t[2..]), t[6..];
      assert t[2..][..4] + rest == t[2..];
      assert t == [0x5C, 0x75] + t[2..];
    }
  }

  /** Whatever is read up to a closing quote was written by pieces. */
  lemma {:induction false} StringSound(t: Text) returns (ps: seq<Piece>)
    requires ParseChars(t, false).Some?
    ensures PiecesFine(ps) && Content(ps) == ParseChars(t, false).value.0
    ensures t == PiecesText(ps) + [0x22] + ParseChars(t, false).value.1
    decreases |t|
  {
    if t[0] == QUOTE {
      ps := [];
      assert t == [0x22] + t[1..];
    } else {
      var p, rest := PieceSound(t);
      hide ParseChars, PieceFine, PieceText, PieceUnit, PiecesText, Content;
      var more := StringSound(rest);
      PiecesMore(p, more, rest, ParseChars(rest, false).value.1);
      ps := [p] + more;
    }
  }

  lemma PiecesMore(p: Piece, ps: seq<Piece>, t: Text, rest: Text)
    requires PieceFine(p) && PiecesFine(ps) && t == PiecesText(ps) + [0x22] + rest
    ensures PiecesFine([p] + ps) && Content([p] + ps) == [PieceUnit(p)] + Content(ps)
    ensures PieceText(p) + t == PiecesText([p] + ps) + [0x22] + rest
  {
    var all := [p] + ps;
    assert all[1..] == ps;
    assert PieceText(p) + (PiecesText(ps) + [0x22] + rest) == PieceText(p) + PiecesText(ps) + [0x22] + rest;
  }

  function CodedAt(t: Text): (p: Piece)
    requires ParseHex4(t).Some?
    ensures PieceFine(p) && PieceUnit(p) == ParseHex4(t).value && |t| >= 4 && PieceText(p) == [0x5C, 0x75] + t[..4]
  {
    var ds := [HexValue(t[0]).value, HexValue(t[1]).value, HexValue(t[2]).value, HexValue(t[3]).value];
    HexExact(t[0], ds[0]);
    HexExact(t[1], ds[1]);
    HexExact(t[2], ds[2]);
    HexExact(t[3], ds[3]);
    Coded(t[..4], ds)
  }

  // ---------------------------------------------------------------- white space

  lemma {:induction false} SpacesSkipped(a: Text, t: Text)
    requires Spaces(a)
    ensures SkipSpace(a + t) == SkipSpace(t)
    decreases |a|
  {
    if a == [] {
      assert a + t == t;
    } else {
      assert (a + t)[1..] == a[1..] + t;
      SpacesSkipped(a[1..], t);
    }
  }

  lemma NotSpace(t: Text)
    requires t == [] || !(t[0] == 0x20 || t[0] == 0x09 || t[0] == 0x0A || t[0] == 0x0D)
    ensures SkipSpace(t) == t
  {
  }

  lemma {:induction false} SpacesFound(t: Text) returns (a: Text)
    ensures Spaces(a) && t == a + SkipSpace(t)
    decreases |t|
  {
    a := [];
    assert t == [] + t;
    if t != [] && IsJsonSpace(t[0]) {
      a := SpacesFound(t[1..]);
      a := [t[0]] + a;
      assert t == [t[0]] + t[1..];
    }
  }

  // ---------------------------------------------------------------- numbers

  lemma {:induction false} DigitsParsed(a: Text, t: Text)
    requires AllDigits(a) && (t == [] || !(0x30 <= t[0] <= 0x39))
    ensures Digits(a + t) == |a|
    decreases |a|
  {
    if a == [] {
      assert a + t == t;
    } else {
      assert (a + t)[1..] == a[1..] + t;
      DigitsParsed(a[1..], t);
    }
  }

  lemma {:induction false} DigitsFound(t: Text)
    ensures AllDigits(t[..Digits(t)]) && (Digits(t) < |t| ==> !(0x30 <= t[Digits(t)] <= 0x39))
    decreases |t|
  {
    if t != [] && IsDigit(t[0]) {
      DigitsFound(t[1..]);
      var n := Digits(t);
      assert forall i :: 0 < i < n ==> t[..n][i] == t[1..][..n - 1][i - 1];
    }
  }

  /** What may follow a value. */
  predicate Stops(t: Text) {
    t == [] || t[0] in {0x20, 0x09, 0x0A, 0x0D, 0x2C, 0x5D, 0x7D}
  }

  lemma WholeParsed(minus: bool, whole: Text, tail: Text)
    requires whole != [] && AllDigits(whole) && (|whole| > 1 ==> whole[0] != 0x30)
    requires tail == [] || !(0x30 <= tail[0] <= 0x39)
    ensures var front := (if minus then [0x2D] else []) + whole; WholeEnd(front + tail) == |front|
  {
    var m := if minus then 1 else 0;
    var t := (if minus then [0x2D] else []) + whole + tail;
    assert t[m..] == whole + tail;
    assert t[m] == whole[0];
    DigitsParsed(whole, tail);
  }

  lemma Behind(t: Text, a: nat, f: Text, tail: Text, k: nat)
    requires a <= |t| && t[a..] == f + tail && k <= |f|
    ensures a + k <= |t| && t[a + k..] == f[k..] + tail
    ensures forall i :: 0 <= i < |f| ==> t[a + i] == f[i]
    ensures f == [] && a < |t| ==> tail != [] && t[a] == tail[0]
  {
    assert forall i :: 0 <= i < |t| - a ==> t[a + i] == t[a..][i];
  }

  lemma FractionParsed(t: Text, a: nat, f: Text, tail: Text)
    requires a <= |t| && t[a..] == f + tail && FractionFine(f)
    requires tail == [] || !(tail[0] == 0x2E || 0x30 <= tail[0] <= 0x39)
    ensures FractionEnd(t, a) == a + |f|
  {
    if f == [] {
      Behind(t, a, f, tail, 0);
    } else {
      Behind(t, a, f, tail, 1);
      DigitsParsed(f[1..], tail);
    }
  }

  lemma ExponentParsed(t: Text, b: nat, e: Text, tail: Text)
    requires b <= |t| && t[b..] == e + tail && ExponentFine(e) && Stops(tail)
    ensures ExponentEnd(t, b) == b + |e|
  {
    if e == [] {
      Behind(t, b, e, tail, 0);
    } else {
      Behind(t, b, e, tail, SignEnd(e));
      DigitsParsed(e[SignEnd(e)..], tail);
    }
  }

  lemma Regrouped(n: NumberText, rest: Text)
    ensures var front := (if n.minus then [0x2D] else []) + n.whole;
            && Token(n) + rest == front + (n.fraction + (n.exponent + rest))
            && (front + (n.fraction + (n.exponent + rest)))[|front|..] == n.fraction + (n.exponent + rest)
            && (front + (n.fraction + (n.exponent + rest)))[|front| + |n.fraction|..] == n.exponent + rest
  {
  }

  lemma TailHead(e: Text, rest: Text)
    requires ExponentFine(e) && Stops(rest)
    ensures e + rest == [] || !((e + rest)[0] == 0x2E || 0x30 <= (e + rest)[0] <= 0x39)
  {
  }

  lemma FractionHead(f: Text, tail: Text)
    requires FractionFine(f) && (tail == [] || !(0x30 <= tail[0] <= 0x39))
    ensures f + tail == [] || !(0x30 <= (f + tail)[0] <= 0x39)
  {
  }

  lemma PartsParsed(t: Text, a: nat, f: Text, e: Text, rest: Text)
    requires FractionFine(f) && ExponentFine(e) && Stops(rest)
    requires a <= |t| && WholeEnd(t) == a > 0 && t[a..] == f + (e + rest)
    requires a + |f| <= |t| && t[a + |f|..] == e + rest
    ensures NumberLength(t) == a + |f| + |e|
  {
    TailHead(e, rest);
    FractionParsed(t, a, f, e + rest);
    ExponentParsed(t, a + |f|, e, rest);
    hide WholeEnd, FractionEnd, ExponentEnd, ExponentFine, FractionFine, Stops;
  }

  lemma NumberParsed(n: NumberText, rest: Text)
    requires NumberFine(n) && Stops(rest)
    ensures NumberLength(Token(n) + rest) == |Token(n)|
  {
    Regrouped(n, rest);
    TailHead(n.exponent, rest);
    FractionHead(n.fraction, n.exponent + rest);
    WholeParsed(n.minus, n.whole, n.fraction + (n.exponent + rest));
    hide WholeEnd, NumberLength, ExponentFine, FractionFine, Stops;
    PartsParsed(Token(n) + rest, |(if n.minus then [0x2D] else []) + n.whole|, n.fraction, n.exponent, rest);
  }

  lemma WholeFound(t: Text) returns (minus: bool, whole: Text)
    requires WholeEnd(t) > 0
    ensures whole != [] && AllDigits(whole) && (|whole| > 1 ==> whole[0] != 0x30)
    ensures t[..WholeEnd(t)] == (if minus then [0x2D] else []) + whole
  {
    minus := t[0] == 0x2D;
    var m := if minus then 1 else 0;
    whole := t[m..WholeEnd(t)];
    DigitsFound(t[m..]);
    var n := Digits(t[m..]);
    if t[m] != 0x30 {
      assert t[m..][..n] == whole;
    }
  }

  lemma FractionFound(t: Text, a: nat)
    requires a <= |t|
    ensures FractionFine(t[a..FractionEnd(t, a)])
  {
    var n := FractionEnd(t, a);
    if n > a {
      DigitsFound(t[a + 1..]);
      assert t[a..n][1..] == t[a + 1..][..Digits(t[a + 1..])];
    }
  }

  lemma ExponentFound(t: Text, b: nat)
    requires b <= |t|
    ensures ExponentFine(t[b..ExponentEnd(t, b)])
  {
    var n := ExponentEnd(t, b);
    if n > b {
      var k := if t[b + 1] == 0x2B || t[b + 1] == 0x2D then b + 2 else b + 1;
      DigitsFound(t[k..]);
      var e := t[b..n];
      assert e[1] == t[b + 1] && e[0] == t[b];
      assert e[k - b..] == t[k..][..Digits(t[k..])];
    }
  }

  lemma NumberFound(t: Text) returns (n: NumberText)
    requires NumberLength(t) > 0
    ensures NumberFine(n) && Token(n) == t[..NumberLength(t)]
  {
    var minus, whole := WholeFound(t);
    var a := WholeEnd(t);
    var b := FractionEnd(t, a);
    var c := ExponentEnd(t, b);
    FractionFound(t, a);
    ExponentFound(t, b);
    n := NumberText(minus, whole, t[a..b], t[b..c]);
    hide WholeEnd, FractionEnd, ExponentEnd, FractionFine, ExponentFine;
    ThreeParts(t, a, b, c);
    hide AllDigits;
  }

  lemma ThreeParts(t: Text, a: nat, b: nat, c: nat)
    requires a <= b <= c <= |t|
    ensures t[..a] + t[a..b] + t[b..c] == t[..c]
  {
  }

  // ---------------------------------------------------------------- words and numbers

  lemma WordUnits()
    ensures Lit("null") == [0x6E, 0x75, 0x6C, 0x6C] && Lit("true") == [0x74, 0x72, 0x75, 0x65]
    ensures Lit("false") == [0x66, 0x61, 0x6C, 0x73, 0x65]
  {
  }

  predicate Atomic(d: Document) {
    d.NullWord? || d.BoolWord? || d.Number?
  }

  lemma FirstDiffers(t: Text, w: Text)
    requires w != [] && (t == [] || t[0] != w[0])
    ensures !StartsWith(t, w)
  {
  }

  lemma AtomParsed(d: Document, num: Reader, rest: Text)
    requires Atomic(d) && Fine(d) && Stops(rest)
    ensures ParseAtom(DocText(d) + rest, num) == Some((ValueOf(d, num), rest))
  {
    WordUnits();
    hide Lit;
    var t := DocText(d) + rest;
    if d.Number? {
      NumberHead(d.n, rest);
    }
    if t[0] != 0x6E {
      FirstDiffers(t, Lit("null"));
    }
    if t[0] != 0x74 {
      FirstDiffers(t, Lit("true"));
    }
    if t[0] != 0x66 {
      FirstDiffers(t, Lit("false"));
    }
    match d {
      case NullWord =>
        assert t[..4] == Lit("null") && t[4..] == rest;
      case BoolWord(b) =>
        if b {
          assert t[..4] == Lit("true") && t[4..] == rest;
        } else {
          assert t[..5] == Lit("false") && t[5..] == rest;
        }
      case Number(n) =>
        NumberParsed(n, rest);
        assert t[..|Token(n)|] == Token(n) && t[|Token(n)|..] == rest;
    }
  }

  lemma NumberHead(n: NumberText, rest: Text)
    requires NumberFine(n)
    ensures var t := Token(n) + rest; t != [] && (t[0] == 0x2D || 0x30 <= t[0] <= 0x39)
  {
  }

  lemma AtomSound(t: Text, num: Reader) returns (d: Document)
    requires ParseAtom(t, num).Some?
    ensures Atomic(d) && Fine(d) && ValueOf(d, num) == ParseAtom(t, num).value.0
    ensures t == DocText(d) + ParseAtom(t, num).value.1
  {
    if StartsWith(t, Lit("null")) {
      d := NullWord;
    } else if StartsWith(t, Lit("true")) {
      d := BoolWord(true);
    } else if StartsWith(t, Lit("false")) {
      d := BoolWord(false);
    } else {
      var n := NumberFound(t);
      d := Document.Number(n);
    }
    var k := |DocText(d)|;
    assert t == t[..k] + t[k..];
  }

  // ---------------------------------------------------------------- reading a document

  /** The first unit of a document is no white space and nothing that ends one. */
  lemma DocHead(d: Document)
    requires Fine(d)
    ensures var t := DocText(d);
            && t != []
            && t[0] !in {0x20, 0x09, 0x0A, 0x0D, 0x2C, 0x3A, 0x5D, 0x7D}
            && (t[0] == 0x22 <==> d.StringOf?) && (t[0] == 0x5B <==> d.ArrayOf?) && (t[0] == 0x7B <==> d.ObjectOf?)
  {
    WordUnits();
    hide Lit;
    if d.Number? {
      NumberHead(d.n, []);
      assert Token(d.n) + [] == Token(d.n);
    }
  }

  lemma SkippedAlike(t: Text, num: Reader)
    ensures ParseValue(SkipSpace(t), num, false) == ParseValue(t, num, false)
    ensures forall acc :: ParseItems(SkipSpace(t), num, false, acc) == ParseItems(t, num, false, acc)
    ensures forall acc :: ParseFields(SkipSpace(t), num, false, acc) == ParseFields(t, num, false, acc)
  {
    NotSpace(SkipSpace(t));
  }

  lemma StringDocParsed(pieces: seq<Piece>, num: Reader, rest: Text)
    requires PiecesFine(pieces)
    ensures ParseValue(Quoted(pieces) + rest, num, false) == Some((Str(Content(pieces)), rest))
  {
    var t := Quoted(pieces) + rest;
    NotSpace(t);
    StringParsed(pieces, rest);
    hide ParseChars, PiecesText;
    assert t[1..] == PiecesText(pieces) + [0x22] + rest;
  }

  lemma AtomDocParsed(d: Document, num: Reader, rest: Text)
    requires Atomic(d) && Fine(d) && Stops(rest)
    ensures ParseValue(DocText(d) + rest, num, false) == Some((ValueOf(d, num), rest))
  {
    DocHead(d);
    AtomParsed(d, num, rest);
    hide DocText, ParseAtom, ValueOf;
    NotSpace(DocText(d) + rest);
  }

  lemma {:induction false} DocParsed(before: Text, d: Document, num: Reader, rest: Text)
    requires Spaces(before) && Fine(d) && Stops(rest)
    ensures ParseValue(before + DocText(d) + rest, num, false) == Some((ValueOf(d, num), rest))
    decreases d, 2
  {
    match d {
      case StringOf(pieces) => StringDocParsed(pieces, num, rest);
      case ArrayOf(gap, items) => ArrayParsed(d, num, rest);
      case ObjectOf(gap, members) => ObjectParsed(d, num, rest);
      case _ => AtomDocParsed(d, num, rest);
    }
    assert ParseValue(DocText(d) + rest, num, false) == Some((ValueOf(d, num), rest));
    var t := DocText(d) + rest;
    hide DocText, ValueOf, ParseValue;
    assert before + DocText(d) + rest == before + t;
    SpacesSkipped(before, t);
    SkippedAlike(before + t, num);
    SkippedAlike(t, num);
  }

  lemma EmptyParsed(open: Unit, gap: Text, num: Reader, rest: Text)
    requires Spaces(gap) && open in {0x5B, 0x7B}
    ensures var close: Unit := if open == 0x5B then 0x5D else 0x7D;
            ParseValue([open] + (gap + ([close] + rest)), num, false) == Some((if open == 0x5B then Arr([]) else Obj([]), rest))
  {
    var close: Text := [if open == 0x5B then 0x5D else 0x7D] + rest;
    var t := [open] + (gap + close);
    NotSpace(t);
    assert t[1..] == gap + close;
    SpacesSkipped(gap, close);
    NotSpace(close);
    assert close[1..] == rest;
  }

  lemma OpenedParsed(open: Unit, body: Text, num: Reader)
    requires open in {0x5B, 0x7B}
    requires SkipSpace(body) != [] && SkipSpace(body)[0] !in {0x5D, 0x7D}
    ensures ParseValue([open] + body, num, false) ==
            if open == 0x5B then ParseItems(body, num, false, []) else ParseFields(body, num, false, [])
  {
    var t := [open] + body;
    NotSpace(t);
    assert t[1..] == body;
    SkippedAlike(body, num);
  }

  lemma ArrayText(gap: Text, items: seq<Item>, rest: Text)
    ensures DocText(ArrayOf(gap, items)) + rest == [0x5B] + ((if items == [] then gap else ItemsText(items)) + ([0x5D] + rest))
  {
    var body := if items == [] then gap else ItemsText(items);
    assert DocText(ArrayOf(gap, items)) == [0x5B] + body + [0x5D];
    hide DocText, ItemsText;
    assert [0x5B] + body + [0x5D] + rest == [0x5B] + (body + ([0x5D] + rest));
  }

  lemma ObjectText(gap: Text, members: seq<Member>, rest: Text)
    ensures DocText(ObjectOf(gap, members)) + rest == [0x7B] + ((if members == [] then gap else MembersText(members)) + ([0x7D] + rest))
  {
    var body := if members == [] then gap else MembersText(members);
    assert DocText(ObjectOf(gap, members)) == [0x7B] + body + [0x7D];
    hide DocText, MembersText;
    assert [0x7B] + body + [0x7D] + rest == [0x7B] + (body + ([0x7D] + rest));
  }

  lemma {:induction false} ArrayParsed(d: Document, num: Reader, rest: Text)
    requires d.ArrayOf? && Fine(d)
    ensures ParseValue(DocText(d) + rest, num, false) == Some((ValueOf(d, num), rest))
    decreases d, 1
  {
    var items, close := d.items, [0x5D] + rest;
    ArrayText(d.gap, items, rest);
    hide DocText, ParseValue, ParseItems;
    if items == [] {
      EmptyParsed(0x5B, d.gap, num, rest);
    } else {
      assert ItemFine(items[0]);
      ItemsParsed(items, [], num, rest);
      ItemsHead(items, close);
      OpenedParsed(0x5B, ItemsText(items) + close, num);
      var body := ItemsText(items);
      hide ItemsText;
      assert body + [0x5D] + rest == body + close;
      assert [] + ValuesOf(items, num) == ValuesOf(items, num);
    }
  }

  lemma {:induction false} ObjectParsed(d: Document, num: Reader, rest: Text)
    requires d.ObjectOf? && Fine(d)
    ensures ParseValue(DocText(d) + rest, num, false) == Some((ValueOf(d, num), rest))
    decreases d, 1
  {
    var members, close := d.members, [0x7D] + rest;
    ObjectText(d.gap, members, rest);
    hide DocText, ParseValue, ParseFields;
    if members == [] {
      EmptyParsed(0x7B, d.gap, num, rest);
    } else {
      assert MemberFine(members[0]);
      MembersParsed(members, [], num, rest);
      MembersHead(members, close);
      OpenedParsed(0x7B, MembersText(members) + close, num);
      var body := MembersText(members);
      hide MembersText;
      assert body + [0x7D] + rest == body + close;
    }
  }

  lemma ItemsHead(items: seq<Item>, rest: Text)
    requires items != [] && ItemFine(items[0])
    ensures var s := SkipSpace(ItemsText(items) + rest); s != [] && s[0] !in {0x5D, 0x7D}
  {
    var i := items[0];
    DocHead(i.doc);
    var tail := if |items| == 1 then i.after + rest else i.after + [0x2C] + ItemsText(items[1..]) + rest;
    hide DocText;
    assert ItemsText(items) + rest == i.before + (DocText(i.doc) + tail);
    SpacesSkipped(i.before, DocText(i.doc) + tail);
    NotSpace(DocText(i.doc) + tail);
  }

  lemma MembersHead(members: seq<Member>, rest: Text)
    requires members != [] && MemberFine(members[0])
    ensures var s := SkipSpace(MembersText(members) + rest); s != [] && s[0] == 0x22
  {
    var m := members[0];
    var tail := if |members| == 1 then rest else [0x2C] + MembersText(members[1..]) + rest;
    hide MemberText;
    assert MembersText(members) + rest == MemberText(m) + tail;
    MemberHead(m, tail);
  }

  lemma MemberHead(m: Member, next: Text)
    requires MemberFine(m)
    ensures var s := SkipSpace(MemberText(m) + next); s != [] && s[0] == 0x22
  {
    var tail := PiecesText(m.key) + [0x22] + m.between + [0x3A] + ItemText(m.item) + next;
    hide ItemText, PiecesText;
    assert MemberText(m) + next == m.before + ([0x22] + tail);
    SpacesSkipped(m.before, [0x22] + tail);
    NotSpace([0x22] + tail);
  }

  /** An item in front of what ends it. */
  lemma {:induction false} ItemParsed(i: Item, num: Reader, next: Text)
    requires ItemFine(i) && next != [] && next[0] in {0x2C, 0x5D, 0x7D}
    ensures ParseValue(ItemText(i) + next, num, false) == Some((ValueOf(i.doc, num), i.after + next))
    ensures SkipSpace(i.after + next) == next
    decreases i, 0
  {
    DocParsed(i.before, i.doc, num, i.after + next);
    SpacesSkipped(i.after, next);
    NotSpace(next);
    hide DocText;
    assert ItemText(i) + next == i.before + DocText(i.doc) + (i.after + next);
  }

  lemma ItemStep(t: Text, num: Reader, acc: seq<Value>, v: Value, after: Text, close: bool, next: Text)
    requires ParseValue(t, num, false) == Some((v, after)) && SkipSpace(after) == [if close then 0x5D else 0x2C] + next
    ensures ParseItems(t, num, false, acc) ==
            if close then Some((Arr(acc + [v]), next)) else ParseItems(next, num, false, acc + [v])
  {
    assert SkipSpace(after)[1..] == next;
  }

  lemma FieldStep(
      t: Text, num: Reader, acc: seq<Field>, key: Text, afterKey: Text, value: Text, v: Value, after: Text, close: bool, next: Text)
    requires SkipSpace(t) != [] && SkipSpace(t)[0] == QUOTE
    requires ParseChars(SkipSpace(t)[1..], false) == Some((key, afterKey)) && SkipSpace(afterKey) == [0x3A] + value
    requires ParseValue(value, num, false) == Some((v, after)) && SkipSpace(after) == [if close then 0x7D else 0x2C] + next
    ensures ParseFields(t, num, false, acc) ==
            if close then Some((Obj(Put(acc, key, v)), next)) else ParseFields(next, num, false, Put(acc, key, v))
  {
    assert SkipSpace(afterKey)[1..] == value;
    assert SkipSpace(after)[1..] == next;
  }

  lemma GrownLonger(acc: seq<Value>, v: Value, more: seq<Value>)
    ensures acc + [v] + more == acc + ([v] + more)
  {
  }

  lemma {:induction false} ItemsParsed(items: seq<Item>, acc: seq<Value>, num: Reader, rest: Text)
    requires items != [] && forall i :: 0 <= i < |items| ==> ItemFine(items[i])
    ensures ParseItems(ItemsText(items) + [0x5D] + rest, num, false, acc) == Some((Arr(acc + ValuesOf(items, num)), rest))
    decreases items, 0
  {
    var first, last := items[0], |items| == 1;
    var v := ValueOf(first.doc, num);
    var next := if last then rest else ItemsText(items[1..]) + [0x5D] + rest;
    var ended := [if last then 0x5D else 0x2C] + next;
    ItemParsed(first, num, ended);
    ItemStep(ItemText(first) + ended, num, acc, v, first.after + ended, last, next);
    ItemsUnfold(items, rest, num);
    assert [v] + [] == [v];
    if !last {
      ItemsParsed(items[1..], acc + [v], num, rest);
      GrownLonger(acc, v, ValuesOf(items[1..], num));
    }
    hide ParseItems, ItemText, ItemsText, ValuesOf, ValueOf;
  }

  lemma Regroup(a: Text, b: Text, close: Unit, rest: Text)
    ensures (a + [0x2C] + b) + [close] + rest == a + ([0x2C] + (b + [close] + rest))
    ensures a + [close] + rest == a + ([close] + rest)
  {
  }

  lemma ItemsUnfold(items: seq<Item>, rest: Text, num: Reader)
    requires items != []
    ensures ItemsText(items) + [0x5D] + rest ==
            ItemText(items[0]) + (if |items| == 1 then [0x5D] + rest else [0x2C] + (ItemsText(items[1..]) + [0x5D] + rest))
    ensures ValuesOf(items, num) == [ValueOf(items[0].doc, num)] + if |items| == 1 then [] else ValuesOf(items[1..], num)
  {
    hide ItemText, ValueOf;
    Regroup(ItemText(items[0]), if |items| == 1 then [] else ItemsText(items[1..]), 0x5D, rest);
  }

  lemma {:induction false} MembersParsed(members: seq<Member>, acc: seq<Field>, num: Reader, rest: Text)
    requires members != [] && forall i :: 0 <= i < |members| ==> MemberFine(members[i])
    ensures ParseFields(MembersText(members) + [0x7D] + rest, num, false, acc) == Some((Obj(FieldsOf(acc, members, num)), rest))
    decreases members, 0
  {
    var m, last := members[0], |members| == 1;
    var next := if last then rest else MembersText(members[1..]) + [0x7D] + rest;
    var ended := [if last then 0x7D else 0x2C] + next;
    var key, v := Content(m.key), ValueOf(m.item.doc, num);
    KeyParsed(m, num, ended);
    ItemParsed(m.item, num, ended);
    var value := ItemText(m.item) + ended;
    FieldStep(MemberText(m) + ended, num, acc, key, m.between + ([0x3A] + value), value, v, m.item.after + ended, last, next);
    MembersUnfold(members, acc, rest, num);
    if !last {
      MembersParsed(members[1..], Put(acc, key, v), num, rest);
    }
    hide ParseFields, MemberText, MembersText, FieldsOf, ValueOf, Content, Put;
  }

  lemma MembersUnfold(members: seq<Member>, acc: seq<Field>, rest: Text, num: Reader)
    requires members != []
    ensures MembersText(members) + [0x7D] + rest ==
            MemberText(members[0]) + (if |members| == 1 then [0x7D] + rest else [0x2C] + (MembersText(members[1..]) + [0x7D] + rest))
    ensures var grown := Put(acc, Content(members[0].key), ValueOf(members[0].item.doc, num));
            FieldsOf(acc, members, num) == if |members| == 1 then grown else FieldsOf(grown, members[1..], num)
  {
    hide MemberText, ValueOf, Put, Content;
    Regroup(MemberText(members[0]), if |members| == 1 then [] else MembersText(members[1..]), 0x7D, rest);
  }

  /** A member up to its value. */
  lemma KeyParsed(m: Member, num: Reader, next: Text)
    requires MemberFine(m)
    ensures var s := SkipSpace(MemberText(m) + next);
            && s != [] && s[0] == QUOTE
            && ParseChars(s[1..], false) == Some((Content(m.key), m.between + ([0x3A] + (ItemText(m.item) + next))))
            && SkipSpace(m.between + ([0x3A] + (ItemText(m.item) + next))) == [0x3A] + (ItemText(m.item) + next)
  {
    var value := [0x3A] + (ItemText(m.item) + next);
    var chars := PiecesText(m.key) + [0x22] + (m.between + value);
    hide ItemText, PiecesText, ParseChars;
    assert MemberText(m) + next == m.before + ([0x22] + chars);
    SpacesSkipped(m.before, [0x22] + chars);
    NotSpace([0x22] + chars);
    assert ([0x22] + chars)[1..] == chars;
    StringParsed(m.key, m.between + value);
    SpacesSkipped(m.between, value);
    NotSpace(value);
  }

  // ---------------------------------------------------------------- whatever is read is a document

  lemma ItemsPrefixed(gap: Text, items: seq<Item>, num: Reader) returns (r: seq<Item>)
    requires Spaces(gap) && items != [] && forall i :: 0 <= i < |items| ==> ItemFine(items[i])
    ensures r != [] && (forall i :: 0 <= i < |r| ==> ItemFine(r[i]))
    ensures ItemsText(r) == gap + ItemsText(items) && ValuesOf(r, num) == ValuesOf(items, num)
  {
    var first := items[0].(before := gap + items[0].before);
    r := [first] + items[1..];
    assert ItemFine(items[0]);
    assert r[1..] == items[1..];
    hide ValueOf, DocText;
    assert ItemText(first) == gap + ItemText(items[0]);
    hide ItemText;
    if |items| > 1 {
      assert ItemsText(r) == ItemText(first) + [0x2C] + ItemsText(items[1..]);
      assert gap + ItemText(items[0]) + [0x2C] + ItemsText(items[1..]) == gap + (ItemText(items[0]) + [0x2C] + ItemsText(items[1..]));
    }
  }

  lemma MemberPrefixed(gap: Text, m: Member)
    requires Spaces(gap) && MemberFine(m)
    ensures MemberFine(m.(before := gap + m.before)) && MemberText(m.(before := gap + m.before)) == gap + MemberText(m)
  {
    hide ItemText, Quoted;
  }

  lemma LongerPrefixed(gap: Text, a: Text, b: Text)
    ensures gap + a + [0x2C] + b == gap + (a + [0x2C] + b)
  {
  }

  lemma MembersPrefixed(gap: Text, members: seq<Member>, num: Reader) returns (r: seq<Member>)
    requires Spaces(gap) && members != [] && forall i :: 0 <= i < |members| ==> MemberFine(members[i])
    ensures r != [] && (forall i :: 0 <= i < |r| ==> MemberFine(r[i]))
    ensures MembersText(r) == gap + MembersText(members) && FieldsOf([], r, num) == FieldsOf([], members, num)
  {
    var first := members[0].(before := gap + members[0].before);
    r := [first] + members[1..];
    assert MemberFine(members[0]);
    MemberPrefixed(gap, members[0]);
    hide ValueOf, ItemText, Quoted, Content, Put, MemberText, MemberFine;
    assert r[1..] == members[1..];
    if |members| > 1 {
      LongerPrefixed(gap, MemberText(members[0]), MembersText(members[1..]));
    }
  }

  lemma {:induction false} ValueSound(t: Text, num: Reader) returns (before: Text, d: Document)
    requires ParseValue(t, num, false).Some?
    ensures Spaces(before) && Fine(d) && ValueOf(d, num) == ParseValue(t, num, false).value.0
    ensures t == before + DocText(d) + ParseValue(t, num, false).value.1
    decreases |t|, 2
  {
    var s := SkipSpace(t);
    before := SpacesFound(t);
    SkippedAlike(t, num);
    d := DocSound(s, num);
    var rest := ParseValue(t, num, false).value.1;
    hide ParseValue, DocText, ValueOf, Fine;
    assert before + (DocText(d) + rest) == before + DocText(d) + rest;
  }

  lemma SimpleUnfold(s: Text, num: Reader)
    requires s != [] && SkipSpace(s) == s && s[0] !in {0x5B, 0x7B}
    ensures s[0] != QUOTE ==> ParseValue(s, num, false) == ParseAtom(s, num)
    ensures s[0] == QUOTE ==>
              match ParseChars(s[1..], false)
              case None => ParseValue(s, num, false).None?
              case Some((content, rest)) => ParseValue(s, num, false) == Some((Str(content), rest))
  {
  }

  lemma {:induction false} DocSound(s: Text, num: Reader) returns (d: Document)
    requires SkipSpace(s) == s && ParseValue(s, num, false).Some?
    ensures Fine(d) && ValueOf(d, num) == ParseValue(s, num, false).value.0
    ensures s == DocText(d) + ParseValue(s, num, false).value.1
    decreases |s|, 1
  {
    if s[0] == 0x5B {
      d := ArraySound(s, num);
    } else if s[0] == 0x7B {
      d := ObjectSound(s, num);
    } else {
      SimpleUnfold(s, num);
      hide ParseValue, ParseChars, ParseAtom, PiecesText;
      if s[0] == QUOTE {
        var ps := StringSound(s[1..]);
        d := StringOf(ps);
        assert s == [0x22] + s[1..];
      } else {
        d := AtomSound(s, num);
      }
    }
  }

  lemma ContainerUnfold(s: Text, num: Reader)
    requires s != [] && s[0] in {0x5B, 0x7B}
    ensures var inner := SkipSpace(s[1..]);
            ParseValue(s, num, false) ==
            if s[0] == 0x5B then
              if inner != [] && inner[0] == 0x5D then Some((Arr([]), inner[1..])) else ParseItems(inner, num, false, [])
            else if inner != [] && inner[0] == 0x7D then Some((Obj([]), inner[1..]))
            else ParseFields(inner, num, false, [])
  {
    NotSpace(s);
  }

  lemma Rejoined(s: Text, gap: Text, inner: Text, body: Text, close: Unit, rest: Text)
    requires s != [] && s[1..] == gap + inner && inner == body + [close] + rest
    ensures s == [s[0]] + ((gap + body) + ([close] + rest))
  {
  }

  lemma {:induction false} ArraySound(s: Text, num: Reader) returns (d: Document)
    requires s != [] && s[0] == 0x5B && ParseValue(s, num, false).Some?
    ensures Fine(d) && ValueOf(d, num) == ParseValue(s, num, false).value.0
    ensures s == DocText(d) + ParseValue(s, num, false).value.1
    decreases |s|, 0
  {
    var inner := SkipSpace(s[1..]);
    var gap := SpacesFound(s[1..]);
    ContainerUnfold(s, num);
    var rest := ParseValue(s, num, false).value.1;
    hide ParseValue, ParseItems;
    if inner != [] && inner[0] == 0x5D {
      d := ArrayOf(gap, []);
      ArrayText(gap, [], rest);
      hide DocText;
      assert inner == [] + [0x5D] + rest;
      Rejoined(s, gap, inner, [], 0x5D, rest);
      assert gap + [] == gap;
    } else {
      var items := ItemsSound(inner, num, []);
      var all := ItemsPrefixed(gap, items, num);
      d := ArrayOf([], all);
      ArrayText([], all, rest);
      Rejoined(s, gap, inner, ItemsText(items), 0x5D, rest);
      hide DocText, ItemsText;
      assert [] + ValuesOf(items, num) == ValuesOf(items, num);
    }
  }

  lemma {:induction false} ObjectSound(s: Text, num: Reader) returns (d: Document)
    requires s != [] && s[0] == 0x7B && ParseValue(s, num, false).Some?
    ensures Fine(d) && ValueOf(d, num) == ParseValue(s, num, false).value.0
    ensures s == DocText(d) + ParseValue(s, num, false).value.1
    decreases |s|, 0
  {
    var inner := SkipSpace(s[1..]);
    var gap := SpacesFound(s[1..]);
    ContainerUnfold(s, num);
    var rest := ParseValue(s, num, false).value.1;
    hide ParseValue, ParseFields;
    if inner != [] && inner[0] == 0x7D {
      d := ObjectOf(gap, []);
      ObjectText(gap, [], rest);
      hide DocText;
      assert inner == [] + [0x7D] + rest;
      Rejoined(s, gap, inner, [], 0x7D, rest);
      assert gap + [] == gap;
    } else {
      var members := FieldsSound(inner, num, []);
      var all := MembersPrefixed(gap, members, num);
      d := ObjectOf([], all);
      ObjectText([], all, rest);
      Rejoined(s, gap, inner, MembersText(members), 0x7D, rest);
      hide DocText, MembersText;
    }
  }

  lemma {:induction false} ItemsSound(t: Text, num: Reader, acc: seq<Value>) returns (items: seq<Item>)
    requires ParseItems(t, num, false, acc).Some?
    ensures items != [] && forall i :: 0 <= i < |items| ==> ItemFine(items[i])
    ensures ParseItems(t, num, false, acc).value.0 == Arr(acc + ValuesOf(items, num))
    ensures t == ItemsText(items) + [0x5D] + ParseItems(t, num, false, acc).value.1
    decreases |t|, 3
  {
    var before, d := ValueSound(t, num);
    var (v, r) := ParseValue(t, num, false).value;
    var after := SpacesFound(r);
    var next := SkipSpace(r);
    var item := Item(before, d, after);
    var rest := ParseItems(t, num, false, acc).value.1;
    assert next == [next[0]] + next[1..];
    ItemJoined(t, item, r, next);
    if next[0] == 0x2C {
      var more := ItemsSound(next[1..], num, acc + [v]);
      items := [item] + more;
      assert items[1..] == more;
      ItemsUnfold(items, rest, num);
      GrownLonger(acc, v, ValuesOf(more, num));
    } else {
      items := [item];
      ItemsUnfold(items, rest, num);
      assert [v] + [] == [v];
    }
    hide ItemsText, ItemText, ParseItems, ParseValue, ValueOf, ValuesOf;
  }

  lemma ItemJoined(t: Text, i: Item, r: Text, next: Text)
    requires t == i.before + DocText(i.doc) + r && r == i.after + next
    ensures t == ItemText(i) + next
  {
    hide DocText;
  }

  /** The parts of the first member that is read, and what is behind each of them. */
  datatype FirstField = FirstField(key: Text, afterKey: Text, value: Text, v: Value, after: Text, next: Text)

  /** What reading members does with the first one. */
  lemma FieldsUnfold(t: Text, num: Reader, acc: seq<Field>) returns (f: FirstField)
    requires ParseFields(t, num, false, acc).Some?
    ensures SkipSpace(t) != [] && SkipSpace(t)[0] == QUOTE && ParseChars(SkipSpace(t)[1..], false) == Some((f.key, f.afterKey))
    ensures SkipSpace(f.afterKey) == [0x3A] + f.value && |f.value| < |t|
    ensures ParseValue(f.value, num, false) == Some((f.v, f.after)) && SkipSpace(f.after) == f.next
    ensures f.next != [] && f.next[0] in {0x2C, 0x7D} && |f.next| <= |t|
    ensures ParseFields(t, num, false, acc) ==
            if f.next[0] == 0x2C then ParseFields(f.next[1..], num, false, Put(acc, f.key, f.v))
            else Some((Obj(Put(acc, f.key, f.v)), f.next[1..]))
  {
    var s := SkipSpace(t);
    var key, afterKey := ParseChars(s[1..], false).value.0, ParseChars(s[1..], false).value.1;
    var colon := SkipSpace(afterKey);
    var value := colon[1..];
    assert colon == [0x3A] + value;
    var v, after := ParseValue(value, num, false).value.0, ParseValue(value, num, false).value.1;
    f := FirstField(key, afterKey, value, v, after, SkipSpace(after));
    hide ParseChars, ParseValue;
  }

  lemma {:induction false} FieldsSound(t: Text, num: Reader, acc: seq<Field>) returns (members: seq<Member>)
    requires ParseFields(t, num, false, acc).Some?
    ensures members != [] && forall i :: 0 <= i < |members| ==> MemberFine(members[i])
    ensures ParseFields(t, num, false, acc).value.0 == Obj(FieldsOf(acc, members, num))
    ensures t == MembersText(members) + [0x7D] + ParseFields(t, num, false, acc).value.1
    decreases |t|, 3
  {
    hide ParseFields, ParseValue, ParseChars, MemberText, MembersText, MemberFine, FieldsOf, ValueOf, Content, Put, SkipSpace;
    var f := FieldsUnfold(t, num, acc);
    var next := f.next;
    var m := MemberSound(t, num, f.key, f.afterKey, f.value, f.v, f.after, next);
    var rest := ParseFields(t, num, false, acc).value.1;
    assert next == [next[0]] + next[1..];
    if next[0] == 0x2C {
      var more := FieldsSound(next[1..], num, Put(acc, f.key, f.v));
      members := [m] + more;
      assert members[1..] == more;
    } else {
      members := [m];
    }
    MembersUnfold(members, acc, rest, num);
  }

  lemma {:induction false} MemberSound(
      t: Text, num: Reader, key: Text, afterKey: Text, value: Text, v: Value, after: Text, next: Text) returns (m: Member)
    requires SkipSpace(t) != [] && SkipSpace(t)[0] == QUOTE && ParseChars(SkipSpace(t)[1..], false) == Some((key, afterKey))
    requires SkipSpace(afterKey) == [0x3A] + value && |value| < |t|
    requires ParseValue(value, num, false) == Some((v, after)) && SkipSpace(after) == next
    ensures MemberFine(m) && Content(m.key) == key && ValueOf(m.item.doc, num) == v && t == MemberText(m) + next
    decreases |t|, 2
  {
    var s := SkipSpace(t);
    var front := SpacesFound(t);
    var ps := StringSound(s[1..]);
    var between := SpacesFound(afterKey);
    var before, d := ValueSound(value, num);
    var behind := SpacesFound(after);
    m := Member(front, ps, between, Item(before, d, behind));
    hide ParseValue, ParseChars, ValueOf, DocText, Content, PiecesText;
    ItemJoined(value, m.item, after, next);
    assert s == [0x22] + s[1..];
    MemberJoined(t, m, s[1..], afterKey, value, next);
  }

  lemma MemberJoined(t: Text, m: Member, chars: Text, afterKey: Text, value: Text, next: Text)
    requires t == m.before + ([0x22] + chars) && chars == PiecesText(m.key) + [0x22] + afterKey
    requires afterKey == m.between + ([0x3A] + value) && value == ItemText(m.item) + next
    ensures t == MemberText(m) + next
  {
    hide ItemText, PiecesText;
  }

  /** JSON.parse reads a text as a value exactly if it is a document with that value, white space around it aside. */
  lemma ParseExact(t: Text, num: Reader, v: Value)
    ensures Parse(t, num, false) == Some(v) <==>
              exists before, d, after ::
                Spaces(before) && Fine(d) && Spaces(after) && t == before + DocText(d) + after && v == ValueOf(d, num)
  {
    hide ParseValue, DocText, ValueOf, Fine;
    if Parse(t, num, false) == Some(v) {
      var before, d := ValueSound(t, num);
      var after := ParseValue(t, num, false).value.1;
      var spaces := SpacesFound(after);
      assert Spaces(after);
      assert Spaces(before) && Fine(d) && Spaces(after) && t == before + DocText(d) + after && v == ValueOf(d, num);
    }
    if before, d, after :|
      Spaces(before) && Fine(d) && Spaces(after) && t == before + DocText(d) + after && v == ValueOf(d, num)
    {
      DocParsed(before, d, num, after);
      SpacesSkipped(after, []);
      assert after + [] == after;
    }
  }
}
