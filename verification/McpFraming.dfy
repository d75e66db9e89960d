/**
 Length-prefixed frames on the standard output of an MCP server
 (apps/desktop/electron/mcp-probe.ts).

 Bytes throughout: decoding a payload as UTF-8 and parsing it as JSON are the caller's business.
 */
module McpFraming {
  import opened Prelude
  import opened Utf8

  const CRLF: Bytes := [0x0D, 0x0A, 0x0D, 0x0A]
  const LF: Bytes := [0x0A, 0x0A]

  // ---------------------------------------------------------------- finding the separator

  predicate Occurs(b: Bytes, p: Bytes, i: int) {
    0 <= i && i + |p| <= |b| && b[i..i + |p|] == p
  }

  lemma OccursInTail(b: Bytes, p: Bytes)
    requires b != []
    ensures forall j :: Occurs(b, p, j) && j > 0 ==> Occurs(b[1..], p, j - 1)
    ensures forall j :: Occurs(b[1..], p, j) ==> Occurs(b, p, j + 1)
  {
    forall j | Occurs(b, p, j) && j > 0 ensures Occurs(b[1..], p, j - 1) {
      assert b[1..][j - 1..j - 1 + |p|] == b[j..j + |p|];
    }
    forall j | Occurs(b[1..], p, j) ensures Occurs(b, p, j + 1) {
      assert b[1..][j..j + |p|] == b[j + 1..j + 1 + |p|];
    }
  }

  /** Buffer.indexOf. */
  function IndexOf(b: Bytes, p: Bytes): (r: Option<nat>)
    ensures r.Some? ==> Occurs(b, p, r.value) && forall j :: 0 <= j < r.value ==> !Occurs(b, p, j)
    ensures r.None? ==> forall j :: !Occurs(b, p, j)
  {
    if |b| < |p| then None
    else if b[..|p|] == p then assert b[0..0 + |p|] == p; Some(0)
    else
      OccursInTail(b, p);
      match IndexOf(b[1..], p)
      case None => None
      case Some(i) => Some(i + 1)
  }

  datatype Separator = Separator(index: nat, length: nat)

  function FindHeaderSeparator(b: Bytes): (r: Option<Separator>)
    ensures r.Some? ==> r.value.index + r.value.length <= |b| && r.value.length in {2, 4}
  {
    match (IndexOf(b, CRLF), IndexOf(b, LF))
    case (None, None) => None
    case (Some(i), None) => Some(Separator(i, 4))
    case (None, Some(j)) => Some(Separator(j, 2))
    case (Some(i), Some(j)) => if i <= j then Some(Separator(i, 4)) else Some(Separator(j, 2))
  }

  lemma OccursLonger(b: Bytes, more: Bytes, p: Bytes, i: int)
    requires 0 <= i && i + |p| <= |b|
    ensures Occurs(b + more, p, i) <==> Occurs(b, p, i)
  {
    assert (b + more)[i..i + |p|] == b[i..i + |p|];
  }

  /** A pattern found stays where it is; one not found can only appear towards the end. */
  lemma IndexOfLonger(b: Bytes, more: Bytes, p: Bytes)
    ensures IndexOf(b, p).Some? ==> IndexOf(b + more, p) == IndexOf(b, p)
    ensures IndexOf(b, p).None? && IndexOf(b + more, p).Some? ==> IndexOf(b + more, p).value + |p| > |b|
  {
    forall j | 0 <= j && j + |p| <= |b| ensures Occurs(b + more, p, j) <==> Occurs(b, p, j) {
      OccursLonger(b, more, p, j);
    }
  }

  lemma Apart(b: Bytes, i: nat, j: nat)
    requires Occurs(b, CRLF, i) && Occurs(b, LF, j)
    ensures i != j && i + 1 != j
  {
    assert b[i] == b[i..i + 4][0] && b[i + 1] == b[i..i + 4][1] && b[i + 2] == b[i..i + 4][2];
    assert b[j] == b[j..j + 2][0] && b[j + 1] == b[j..j + 2][1];
  }

  /** More input never moves a separator that was found. */
  lemma SeparatorStable(b: Bytes, more: Bytes)
    requires FindHeaderSeparator(b).Some?
    ensures FindHeaderSeparator(b + more) == FindHeaderSeparator(b)
  {
    hide IndexOf;
    IndexOfLonger(b, more, CRLF);
    IndexOfLonger(b, more, LF);
    if IndexOf(b, CRLF).None? && IndexOf(b + more, CRLF).Some? {
      Apart(b + more, IndexOf(b + more, CRLF).value, IndexOf(b + more, LF).value);
    }
  }

  // ---------------------------------------------------------------- the header

  /** Decoding as ASCII drops the eighth bit. */
  function Ascii(b: Byte): Byte {
    b % 0x80
  }

  function Lower(b: Byte): Byte {
    if 0x41 <= b <= 0x5A then b + 0x20 else b
  }

  function Text(s: string): (t: Bytes)
    ensures |t| == |s|
  {
    seq(|s|, i requires 0 <= i < |s| => (s[i] as int) % 0x80)
  }

  const NAME: Bytes := Text("content-length:")

  predicate IsBlank(b: Byte) {
    0x09 <= b <= 0x0D || b == 0x20
  }

  predicate IsDigit(b: Byte) {
    0x30 <= b <= 0x39
  }

  function SkipBlanks(h: Bytes): (r: Bytes)
    ensures |r| <= |h|
  {
    if h != [] && IsBlank(Ascii(h[0])) then SkipBlanks(h[1..]) else h
  }

  /** The longest run of digits at the front. */
  function TakeDigits(h: Bytes): Bytes {
    if h != [] && IsDigit(Ascii(h[0])) then [Ascii(h[0])] + TakeDigits(h[1..]) else []
  }

  predicate NamedHere(h: Bytes) {
    |h| >= |NAME| && forall i :: 0 <= i < |NAME| ==> Lower(Ascii(h[i])) == NAME[i]
  }

  /** The name, blanks and a digit: where the expression matches. */
  predicate MatchesHere(h: Bytes) {
    NamedHere(h) && TakeDigits(SkipBlanks(h[|NAME|..])) != []
  }

  /** The leftmost match of /content-length:\s*(\d+)/i: its digits. */
  function LengthDigits(h: Bytes): Option<Bytes> {
    if h == [] then None
    else if MatchesHere(h) then Some(TakeDigits(SkipBlanks(h[|NAME|..])))
    else LengthDigits(h[1..])
  }

  function Value(digits: Bytes): nat {
    if digits == [] then 0
    else
      var last := digits[|digits| - 1];
      Value(digits[..|digits| - 1]) * 10 + if last >= 0x30 then last - 0x30 else 0
  }

  /** The body length of a header, None if it has none or one that is no safe integer. */
  function ContentLength(h: Bytes): Option<nat> {
    match LengthDigits(h)
    case None => None
    case Some(digits) => if Value(digits) <= MAX_SAFE_INTEGER then Some(Value(digits)) else None
  }

  // ---------------------------------------------------------------- reading a frame

  datatype Frame = Frame(payload: Option<Bytes>, rest: Bytes)

  /** readMcpFrame. */
  function ReadFrame(b: Bytes): Option<Frame> {
    match FindHeaderSeparator(b)
    case None => None
    case Some(separator) =>
      var bodyStart := separator.index + separator.length;
      match ContentLength(b[..separator.index])
      case None => Some(Frame(None, b[bodyStart..]))
      case Some(length) =>
        if |b| < bodyStart + length then None
        else Some(Frame(Some(b[bodyStart..bodyStart + length]), b[bodyStart + length..]))
  }

  /** A read shortens the buffer, which it only cuts off at the front. */
  lemma ReadShortens(b: Bytes)
    requires ReadFrame(b).Some?
    ensures var rest := ReadFrame(b).value.rest; |rest| < |b| && rest == b[|b| - |rest|..]
  {
  }

  /** What is read does not depend on what comes later. */
  lemma ReadStable(b: Bytes, more: Bytes)
    requires ReadFrame(b).Some?
    ensures ReadFrame(b + more) == Some(Frame(ReadFrame(b).value.payload, ReadFrame(b).value.rest + more))
  {
    hide FindHeaderSeparator, ContentLength;
    SeparatorStable(b, more);
    var s := FindHeaderSeparator(b).value;
    assert (b + more)[..s.index] == b[..s.index];
    var start := s.index + s.length;
    match ContentLength(b[..s.index])
    case None => assert (b + more)[start..] == b[start..] + more;
    case Some(n) =>
      assert (b + more)[start..start + n] == b[start..start + n];
      assert (b + more)[start + n..] == b[start + n..] + more;
  }

  // ---------------------------------------------------------------- well-formed frames

  /** A header, its separator, and as many bytes as the header says. */
  predicate WellFormed(header: Bytes, separator: Bytes, payload: Bytes) {
    && FindHeaderSeparator(header + separator) == Some(Separator(|header|, |separator|))
    && ContentLength(header) == Some(|payload|)
  }

  /** A well-formed frame in front of anything is read as its payload and exactly that. */
  lemma WellFormedRead(header: Bytes, separator: Bytes, payload: Bytes, rest: Bytes)
    requires WellFormed(header, separator, payload)
    ensures ReadFrame(header + separator + payload + rest) == Some(Frame(Some(payload), rest))
  {
    hide FindHeaderSeparator, ContentLength;
    var head := header + separator;
    SeparatorStable(head, payload);
    assert (head + payload)[..|header|] == header;
    assert (head + payload)[|head|..|head| + |payload|] == payload;
    assert (head + payload)[|head| + |payload|..] == [];
    assert ReadFrame(head + payload) == Some(Frame(Some(payload), []));
    ReadStable(head + payload, rest);
    assert [] + rest == rest;
  }

  /** No proper prefix of a well-formed frame is read as anything. */
  lemma PrefixUnread(header: Bytes, separator: Bytes, payload: Bytes, n: nat)
    requires WellFormed(header, separator, payload)
    requires n < |header + separator + payload|
    ensures ReadFrame((header + separator + payload)[..n]).None?
  {
    hide FindHeaderSeparator, ContentLength;
    var head, whole := header + separator, header + separator + payload;
    var prefix := whole[..n];
    if FindHeaderSeparator(prefix).Some? {
      SeparatorStable(prefix, whole[n..]);
      assert prefix + whole[n..] == whole;
      SeparatorStable(head, payload);
      assert FindHeaderSeparator(prefix) == Some(Separator(|header|, |separator|));
      assert prefix[..|header|] == header;
    }
  }

  // ---------------------------------------------------------------- the frames the probe writes

  function Decimal(n: nat): Bytes {
    if n < 10 then [0x30 + n] else Decimal(n / 10) + [0x30 + n % 10]
  }

  predicate AllDigits(t: Bytes) {
    forall i :: 0 <= i < |t| ==> IsDigit(t[i])
  }

  lemma {:induction false} DecimalDigits(n: nat)
    ensures AllDigits(Decimal(n)) && Decimal(n) != [] && Value(Decimal(n)) == n
  {
    if n >= 10 {
      DecimalDigits(n / 10);
      assert Decimal(n)[..|Decimal(n)| - 1] == Decimal(n / 10);
    } else {
      assert Decimal(n)[..0] == [];
    }
  }

  lemma {:induction false} TakesAllDigits(t: Bytes)
    requires AllDigits(t)
    ensures TakeDigits(t) == t
  {
    if t != [] {
      TakesAllDigits(t[1..]);
    }
  }

  const LABEL: Bytes := Text("Content-Length: ")

  function Header(payload: Bytes): Bytes {
    LABEL + Decimal(|payload|)
  }

  /** `Content-Length: n`, an empty line, and the payload. */
  function FrameOf(payload: Bytes): Bytes {
    Header(payload) + CRLF + payload
  }

  lemma LabelNames(more: Bytes)
    requires more != [] && !IsBlank(Ascii(more[0]))
    ensures NamedHere(LABEL + more) && SkipBlanks((LABEL + more)[|NAME|..]) == more
  {
    LabelIsName();
    assert (LABEL + more)[|NAME|..] == [0x20] + more;
    assert ([0x20] + more)[1..] == more;
    hide NAME, LABEL;
    forall i | 0 <= i < |NAME| ensures Lower(Ascii((LABEL + more)[i])) == NAME[i] {
      assert (LABEL + more)[i] == LABEL[i];
    }
  }

  lemma LabelIsName()
    ensures |LABEL| == |NAME| + 1 && LABEL[|NAME|] == 0x20
    ensures forall i :: 0 <= i < |NAME| ==> Lower(Ascii(LABEL[i])) == NAME[i]
  {
    var upper, lower := "Content-Length: ", "content-length:";
    assert forall i :: 0 <= i < |lower| ==>
        (upper[i] as int) < 0x80 && (if 'A' <= upper[i] <= 'Z' then upper[i] as int + 0x20 else upper[i] as int) == lower[i] as int;
  }

  lemma {:induction false} StopsAfterDigits(digits: Bytes, rest: Bytes)
    requires AllDigits(digits) && (rest == [] || !IsDigit(Ascii(rest[0])))
    ensures TakeDigits(digits + rest) == digits
  {
    if digits == [] {
      assert digits + rest == rest;
    } else {
      assert (digits + rest)[1..] == digits[1..] + rest;
      StopsAfterDigits(digits[1..], rest);
    }
  }

  lemma FieldHere(digits: Bytes, rest: Bytes)
    requires AllDigits(digits) && digits != [] && (rest == [] || !IsDigit(Ascii(rest[0])))
    ensures LengthDigits(LABEL + digits + rest) == Some(digits)
  {
    assert (digits + rest)[0] == digits[0];
    LabelNames(digits + rest);
    StopsAfterDigits(digits, rest);
    hide NAME, LABEL, TakeDigits, SkipBlanks, NamedHere;
    assert LABEL + digits + rest == LABEL + (digits + rest);
  }

  /** The field counts wherever it stands in a header that does not match earlier. */
  lemma {:induction false} FieldFound(before: Bytes, digits: Bytes, rest: Bytes)
    requires AllDigits(digits) && digits != [] && (rest == [] || !IsDigit(Ascii(rest[0])))
    requires forall i :: 0 <= i < |before| ==> !MatchesHere((before + (LABEL + digits + rest))[i..])
    ensures LengthDigits(before + (LABEL + digits + rest)) == Some(digits)
    decreases |before|
  {
    hide NAME, LABEL, NamedHere, MatchesHere, SkipBlanks, TakeDigits;
    var field := LABEL + digits + rest;
    if before == [] {
      assert before + field == field;
      FieldHere(digits, rest);
    } else {
      assert (before + field)[0..] == before + field;
      assert (before + field)[1..] == before[1..] + field;
      forall i | 0 <= i < |before[1..]| ensures !MatchesHere((before[1..] + field)[i..]) {
        var next := i + 1;
        assert (before[1..] + field)[i..] == (before + field)[next..];
      }
      FieldFound(before[1..], digits, rest);
    }
  }

  // ---------------------------------------------------------------- which digits a header gives

  /** The byte is the lower-case character, in either case and with either eighth bit. */
  predicate Spells(b: Byte, c: char) {
    b % 0x80 == c as int || ('a' <= c <= 'z' && b % 0x80 == c as int - 0x20)
  }

  /** A field at p whose digits begin at q. */
  predicate FieldAt(h: Bytes, p: int, q: int) {
    && 0 <= p && p + 15 <= q < |h|
    && (forall i :: 0 <= i < 15 ==> Spells(h[p + i], "content-length:"[i]))
    && (forall i :: p + 15 <= i < q ==> h[i] % 0x80 in {0x09, 0x0A, 0x0B, 0x0C, 0x0D, 0x20})
    && 0x30 <= h[q] % 0x80 <= 0x39
  }

  /** All the digits from q on. */
  predicate DigitsAt(h: Bytes, q: int, digits: Bytes) {
    && 0 <= q && digits != [] && q + |digits| <= |h|
    && (forall i :: 0 <= i < |digits| ==> digits[i] == h[q + i] % 0x80 && 0x30 <= digits[i] <= 0x39)
    && (q + |digits| < |h| ==> !(0x30 <= h[q + |digits|] % 0x80 <= 0x39))
  }

  lemma {:induction false} SkipBlanksExact(h: Bytes)
    ensures var n := |h| - |SkipBlanks(h)|;
            && SkipBlanks(h) == h[n..]
            && (forall i :: 0 <= i < n ==> h[i] % 0x80 in {0x09, 0x0A, 0x0B, 0x0C, 0x0D, 0x20})
            && (n < |h| ==> h[n] % 0x80 !in {0x09, 0x0A, 0x0B, 0x0C, 0x0D, 0x20})
    decreases |h|
  {
    if h != [] && IsBlank(Ascii(h[0])) {
      SkipBlanksExact(h[1..]);
      var n := |h| - |SkipBlanks(h)|;
      assert forall i :: 0 < i < |h| ==> h[i] == h[1..][i - 1];
    }
  }

  lemma {:induction false} TakeDigitsExact(h: Bytes)
    ensures TakeDigits(h) == [] <==> h == [] || !(0x30 <= h[0] % 0x80 <= 0x39)
    ensures TakeDigits(h) != [] ==> DigitsAt(h, 0, TakeDigits(h))
    decreases |h|
  {
    if h != [] && IsDigit(Ascii(h[0])) {
      TakeDigitsExact(h[1..]);
      assert forall i :: 0 < i < |h| ==> h[i] == h[1..][i - 1];
    }
  }

  lemma DigitsRun(h: Bytes, q: int, digits: Bytes)
    requires DigitsAt(h, q, digits)
    ensures forall k :: q <= k < q + |digits| ==> 0x30 <= h[k] % 0x80 <= 0x39
  {
    forall k | q <= k < q + |digits| ensures 0x30 <= h[k] % 0x80 <= 0x39 {
      assert digits[k - q] == h[q + (k - q)] % 0x80;
    }
  }

  lemma DigitsOnce(h: Bytes, q: int, a: Bytes, b: Bytes)
    requires DigitsAt(h, q, a) && DigitsAt(h, q, b)
    ensures a == b
  {
    DigitsRun(h, q, a);
    DigitsRun(h, q, b);
    assert |a| == |b|;
  }

  lemma NamedExact(h: Bytes)
    ensures NamedHere(h) <==> |h| >= 15 && forall i :: 0 <= i < 15 ==> Spells(h[i], "content-length:"[i])
  {
    assert forall i :: 0 <= i < 15 ==> NAME[i] == "content-length:"[i] as int;
  }

  lemma MatchesExact(h: Bytes)
    ensures MatchesHere(h) <==> exists q :: FieldAt(h, 0, q)
    ensures MatchesHere(h) ==> exists q :: FieldAt(h, 0, q) && DigitsAt(h, q, LengthDigits(h).value)
  {
    hide NamedHere, SkipBlanks, TakeDigits;
    NamedExact(h);
    if NamedHere(h) {
      var tail := h[15..];
      var n := |tail| - |SkipBlanks(tail)|;
      SkipBlanksExact(tail);
      TakeDigitsExact(SkipBlanks(tail));
      assert forall i :: 0 <= i < |tail| ==> tail[i] == h[15 + i];
      assert forall i :: 0 <= i < |tail| - n ==> SkipBlanks(tail)[i] == h[15 + n + i];
      if TakeDigits(SkipBlanks(tail)) != [] {
        assert FieldAt(h, 0, 15 + n) && DigitsAt(h, 15 + n, TakeDigits(SkipBlanks(tail)));
      }
      if q :| FieldAt(h, 0, q) {
        assert q == 15 + n;
      }
    }
  }

  /** Shifted by one byte. */
  lemma FieldShifted(h: Bytes, p: int, q: int)
    requires h != [] && p > 0
    ensures FieldAt(h, p, q) <==> FieldAt(h[1..], p - 1, q - 1)
  {
    assert forall i :: 0 < i < |h| ==> h[i] == h[1..][i - 1];
  }

  ghost predicate FirstField(h: Bytes, p: int, q: int) {
    FieldAt(h, p, q) && forall before, at :: 0 <= before < p ==> !FieldAt(h, before, at)
  }

  lemma {:induction false} FieldSearched(h: Bytes)
    ensures LengthDigits(h).None? ==> forall p, q :: !FieldAt(h, p, q)
    ensures LengthDigits(h).Some? ==> exists p, q :: FirstField(h, p, q) && DigitsAt(h, q, LengthDigits(h).value)
    decreases |h|
  {
    hide MatchesHere, FieldAt, DigitsAt, SkipBlanks, TakeDigits;
    if h == [] {
      NoField();
    } else {
      MatchesExact(h);
      if MatchesHere(h) {
        var q :| FieldAt(h, 0, q) && DigitsAt(h, q, LengthDigits(h).value);
        assert FirstField(h, 0, q);
      } else {
        FieldSearched(h[1..]);
        FieldsShifted(h);
        if LengthDigits(h).Some? {
          var p, q :| FirstField(h[1..], p, q) && DigitsAt(h[1..], q, LengthDigits(h).value);
          assert FieldAt(h[1..], p, q);
          DigitsShifted(h, q, LengthDigits(h).value);
          assert FieldAt(h, p + 1, q + 1);
          assert FirstField(h, p + 1, q + 1);
        }
      }
    }
  }

  lemma NoField()
    ensures forall p, q :: !FieldAt([], p, q)
  {
  }

  lemma FieldsShifted(h: Bytes)
    requires h != []
    ensures forall p, q :: p < 0 ==> !FieldAt(h, p, q)
    ensures forall p, q :: FieldAt(h[1..], p, q) ==> FieldAt(h, p + 1, q + 1)
    ensures forall p, q :: p > 0 && FieldAt(h, p, q) ==> FieldAt(h[1..], p - 1, q - 1)
  {
    forall p, q | FieldAt(h[1..], p, q) ensures FieldAt(h, p + 1, q + 1) {
      FieldShifted(h, p + 1, q + 1);
    }
    forall p, q | p > 0 && FieldAt(h, p, q) ensures FieldAt(h[1..], p - 1, q - 1) {
      FieldShifted(h, p, q);
    }
  }

  lemma DigitsShifted(h: Bytes, q: int, digits: Bytes)
    requires h != [] && DigitsAt(h[1..], q, digits)
    ensures DigitsAt(h, q + 1, digits)
  {
    assert forall i :: 0 < i < |h| ==> h[i] == h[1..][i - 1];
  }

  lemma FirstFieldOnce(h: Bytes, p: int, q: int, p': int, q': int)
    requires FirstField(h, p, q) && FirstField(h, p', q')
    ensures p == p' && q == q'
  {
  }

  /** The digits are those of the leftmost field, whole; none are found exactly if there is no field. */
  lemma LengthDigitsExact(h: Bytes, digits: Bytes)
    ensures LengthDigits(h) == Some(digits) <==> exists p, q :: FirstField(h, p, q) && DigitsAt(h, q, digits)
    ensures LengthDigits(h).None? <==> forall p, q :: !FieldAt(h, p, q)
  {
    FieldSearched(h);
    hide LengthDigits, DigitsAt, FieldAt;
    if p, q :| FirstField(h, p, q) && DigitsAt(h, q, digits) {
      var p', q' :| FirstField(h, p', q') && DigitsAt(h, q', LengthDigits(h).value);
      FirstFieldOnce(h, p, q, p', q');
      DigitsOnce(h, q, digits, LengthDigits(h).value);
    }
  }

  function Power(n: nat): (r: nat)
    ensures r > 0
  {
    if n == 0 then 1 else 10 * Power(n - 1)
  }

  /** Decimal notation: every digit times the power of its place. */
  function Places(digits: Bytes): int {
    if digits == [] then 0 else (digits[0] - 0x30) * Power(|digits| - 1) + Places(digits[1..])
  }

  lemma NextPlace(d: int, n: nat)
    ensures d * Power(n + 1) == d * Power(n) * 10
  {
    assert Power(n + 1) == 10 * Power(n);
  }

  lemma {:induction false} PlacesAppend(digits: Bytes, last: Byte)
    ensures Places(digits + [last]) == Places(digits) * 10 + (last - 0x30)
    decreases |digits|
  {
    var all := digits + [last];
    if digits == [] {
      assert all == [last] && all[1..] == [];
      assert Power(0) == 1;
    } else {
      assert all[0] == digits[0] && all[1..] == digits[1..] + [last];
      PlacesAppend(digits[1..], last);
      NextPlace(digits[0] as int - 0x30, |digits| - 1);
    }
  }

  lemma {:induction false} ValueIsPlaces(digits: Bytes)
    requires AllDigits(digits)
    ensures Value(digits) == Places(digits)
    decreases |digits|
  {
    if digits != [] {
      var n := |digits| - 1;
      ValueIsPlaces(digits[..n]);
      PlacesAppend(digits[..n], digits[n]);
      assert digits[..n] + [digits[n]] == digits;
    }
  }

  /** The body length is what the digits of the leftmost field write, if that is a safe integer. */
  lemma ContentLengthExact(h: Bytes, n: nat)
    ensures ContentLength(h) == Some(n) <==>
            n <= MAX_SAFE_INTEGER && exists p, q, digits :: FirstField(h, p, q) && DigitsAt(h, q, digits) && Places(digits) == n
  {
    hide LengthDigits, FirstField, Value, Places;
    if ContentLength(h) == Some(n) {
      var digits := LengthDigits(h).value;
      LengthDigitsExact(h, digits);
      ValueIsPlaces(digits);
    }
    if p, q, digits :| FirstField(h, p, q) && DigitsAt(h, q, digits) && Places(digits) == n {
      LengthDigitsExact(h, digits);
      ValueIsPlaces(digits);
    }
  }

  lemma HeaderLength(payload: Bytes)
    requires |payload| <= MAX_SAFE_INTEGER
    ensures ContentLength(Header(payload)) == Some(|payload|)
  {
    DecimalDigits(|payload|);
    FieldHere(Decimal(|payload|), []);
    hide LABEL, Decimal, LengthDigits;
    assert LABEL + Decimal(|payload|) + [] == Header(payload);
  }

  lemma HeaderPlain(payload: Bytes)
    ensures forall i :: 0 <= i < |Header(payload)| ==> Header(payload)[i] != 0x0D && Header(payload)[i] != 0x0A
  {
    LabelIsName();
    DecimalDigits(|payload|);
    var letters := "Content-Length: ";
    assert forall i :: 0 <= i < |letters| ==> letters[i] as int < 0x80 && letters[i] as int > 0x0D;
    assert forall i :: 0 <= i < |LABEL| ==> LABEL[i] == letters[i] as int;
    hide LABEL, Decimal;
  }

  lemma FrameWellFormed(payload: Bytes)
    requires |payload| <= MAX_SAFE_INTEGER
    ensures WellFormed(Header(payload), CRLF, payload)
  {
    HeaderLength(payload);
    HeaderPlain(payload);
    hide Header, ContentLength, FindHeaderSeparator;
    var header := Header(payload);
    assert (header + CRLF)[|header|..] == CRLF;
    NoEarlierSeparator(header + CRLF, |header|);
  }

  lemma NoEarlierSeparator(head: Bytes, n: nat)
    requires |head| == n + 4 && head[n..] == CRLF
    requires forall i :: 0 <= i < n ==> head[i] != 0x0D && head[i] != 0x0A
    ensures FindHeaderSeparator(head) == Some(Separator(n, 4))
  {
    assert head[n] == 0x0D && head[n + 1] == 0x0A && head[n + 2] == 0x0D && head[n + 3] == 0x0A;
    assert head[n..n + 4] == CRLF;
    assert Occurs(head, CRLF, n);
    forall i | 0 <= i < n ensures !Occurs(head, CRLF, i) {
      assert head[i..i + 4][0] == head[i];
    }
    forall i | 0 <= i <= n + 2 ensures !Occurs(head, LF, i) {
      assert head[i..i + 2][0] == head[i] && head[i..i + 2][1] == head[i + 1];
    }
  }

  // ---------------------------------------------------------------- a stream of frames

  /** Reading until nothing more can be read: the payloads in order, and what is left. */
  function Drained(b: Bytes): (seq<Bytes>, Bytes)
    decreases |b|
  {
    match ReadFrame(b)
    case None => ([], b)
    case Some(frame) =>
      ReadShortens(b);
      var (payloads, rest) := Drained(frame.rest);
      (if frame.payload.Some? then [frame.payload.value] + payloads else payloads, rest)
  }

  function FramesOf(payloads: seq<Bytes>): Bytes {
    if payloads == [] then [] else FrameOf(payloads[0]) + FramesOf(payloads[1..])
  }

  lemma FrameDrained(payload: Bytes, rest: Bytes)
    requires |payload| <= MAX_SAFE_INTEGER
    ensures Drained(FrameOf(payload) + rest) == ([payload] + Drained(rest).0, Drained(rest).1)
  {
    hide ReadFrame, WellFormed, Header;
    FrameWellFormed(payload);
    WellFormedRead(Header(payload), CRLF, payload, rest);
  }

  lemma PrefixDrained(payload: Bytes, n: nat)
    requires |payload| <= MAX_SAFE_INTEGER && n < |FrameOf(payload)|
    ensures Drained(FrameOf(payload)[..n]) == ([], FrameOf(payload)[..n])
  {
    hide ReadFrame, WellFormed, Header;
    FrameWellFormed(payload);
    PrefixUnread(Header(payload), CRLF, payload, n);
  }

  /** Concatenated frames decode to their payloads in order; an incomplete last one is left alone. */
  lemma {:induction false} FramesDecoded(payloads: seq<Bytes>, last: Bytes, n: nat)
    requires forall i :: 0 <= i < |payloads| ==> |payloads[i]| <= MAX_SAFE_INTEGER
    requires |last| <= MAX_SAFE_INTEGER && n < |FrameOf(last)|
    ensures Drained(FramesOf(payloads) + FrameOf(last)[..n]) == (payloads, FrameOf(last)[..n])
    decreases |payloads|
  {
    hide Drained, FrameOf;
    var tail := FrameOf(last)[..n];
    if payloads == [] {
      PrefixDrained(last, n);
      assert [] + tail == tail;
    } else {
      FramesDecoded(payloads[1..], last, n);
      FrameDrained(payloads[0], FramesOf(payloads[1..]) + tail);
      assert FramesOf(payloads) + tail == FrameOf(payloads[0]) + (FramesOf(payloads[1..]) + tail);
      assert [payloads[0]] + payloads[1..] == payloads;
    }
  }

  /** Draining may be interrupted: what arrives later is drained from what was left. */
  lemma {:induction false} DrainedInPieces(b: Bytes, more: Bytes)
    ensures var (payloads, rest) := Drained(b);
            var (later, end) := Drained(rest + more);
            Drained(b + more) == (payloads + later, end)
    decreases |b|
  {
    hide ReadFrame;
    var (payloads, rest) := Drained(b);
    var (later, end) := Drained(rest + more);
    if ReadFrame(b).Some? {
      ReadStable(b, more);
      ReadShortens(b);
      DrainedInPieces(ReadFrame(b).value.rest, more);
      if ReadFrame(b).value.payload.Some? {
        var first := [ReadFrame(b).value.payload.value];
        var others := Drained(ReadFrame(b).value.rest).0;
        assert (first + others) + later == first + (others + later);
      }
    } else {
      assert [] + later == later;
    }
  }

  // ---------------------------------------------------------------- the handler of standard output

  const MAX_BUFFERED: nat := 64_000

  /** Overlong leftovers keep their end only. */
  function Truncated(b: Bytes): Bytes {
    if |b| > MAX_BUFFERED then b[|b| - MAX_BUFFERED..] else b
  }

  /** Reading until a payload is accepted or nothing more can be read: what is left, and whether one was. */
  function DrainedUntil(b: Bytes, accepts: Bytes -> bool): (Bytes, bool)
    decreases |b|
  {
    match ReadFrame(b)
    case None => (b, false)
    case Some(frame) =>
      ReadShortens(b);
      if frame.payload.Some? && accepts(frame.payload.value) then (frame.rest, true) else DrainedUntil(frame.rest, accepts)
  }

  datatype State = State(buffered: Bytes, resolved: bool)

  function AfterData(s: State, chunk: Bytes, accepts: Bytes -> bool): State {
    if s.resolved then State(Truncated(s.buffered + chunk), true)
    else
      var (rest, resolved) := DrainedUntil(s.buffered + chunk, accepts);
      State(if resolved then rest else Truncated(rest), resolved)
  }

  /** The part of the handler that looks for frames; `accepts` is `handlePayload`. */
  class FrameReader {
    const accepts: Bytes -> bool
    var buffered: Bytes
    var resolved: bool

    constructor (accepts: Bytes -> bool)
      ensures this.accepts == accepts && buffered == [] && !resolved
    {
      this.accepts, buffered, resolved := accepts, [], false;
    }

    method OnData(chunk: Bytes)
      modifies this
      ensures State(buffered, resolved) == AfterData(old(State(buffered, resolved)), chunk, accepts)
    {
      buffered := buffered + chunk;
      while !resolved
        invariant old(resolved) ==> resolved && buffered == old(buffered) + chunk
        invariant !old(resolved) ==>
                    !resolved && DrainedUntil(buffered, accepts) == DrainedUntil(old(buffered) + chunk, accepts)
        decreases |buffered|
      {
        var frame := ReadFrame(buffered);
        if frame.None? { break; }
        ReadShortens(buffered);
        buffered := frame.value.rest;
        if frame.value.payload.Some? && accepts(frame.value.payload.value) {
          resolved := true;
          return;
        }
      }
      if |buffered| > MAX_BUFFERED {
        buffered := buffered[|buffered| - MAX_BUFFERED..];
      }
    }
  }

  predicate SomeAccepted(payloads: seq<Bytes>, accepts: Bytes -> bool) {
    exists i :: 0 <= i < |payloads| && accepts(payloads[i])
  }

  lemma {:induction false} UntilAccepted(b: Bytes, accepts: Bytes -> bool)
    ensures DrainedUntil(b, accepts).1 <==> SomeAccepted(Drained(b).0, accepts)
    ensures !DrainedUntil(b, accepts).1 ==> DrainedUntil(b, accepts).0 == Drained(b).1
    decreases |b|
  {
    hide ReadFrame;
    if ReadFrame(b).Some? {
      var frame := ReadFrame(b).value;
      ReadShortens(b);
      UntilAccepted(frame.rest, accepts);
      var others := Drained(frame.rest).0;
      if frame.payload.Some? {
        assert Drained(b).0 == [frame.payload.value] + others;
        assert accepts(frame.payload.value) ==> accepts(Drained(b).0[0]);
        assert forall i :: 0 <= i < |others| ==> Drained(b).0[i + 1] == others[i];
      }
    }
  }

  function Joined(chunks: seq<Bytes>): Bytes {
    if chunks == [] then [] else Joined(chunks[..|chunks| - 1]) + chunks[|chunks| - 1]
  }

  function Fed(chunks: seq<Bytes>, accepts: Bytes -> bool): State {
    if chunks == [] then State([], false)
    else AfterData(Fed(chunks[..|chunks| - 1], accepts), chunks[|chunks| - 1], accepts)
  }

  /** However far the input got, an incomplete frame at its end fits the buffer. */
  predicate LeftoversFit(chunks: seq<Bytes>) {
    forall i :: 0 <= i <= |chunks| ==> |Drained(Joined(chunks[..i])).1| <= MAX_BUFFERED
  }

  /** As long as leftovers fit, it does not matter how the input was cut: the probe resolves on the same payloads. */
  lemma {:induction false} ChunksDoNotMatter(chunks: seq<Bytes>, accepts: Bytes -> bool)
    requires LeftoversFit(chunks)
    ensures Fed(chunks, accepts).resolved <==> SomeAccepted(Drained(Joined(chunks)).0, accepts)
    ensures !Fed(chunks, accepts).resolved ==> Fed(chunks, accepts).buffered == Drained(Joined(chunks)).1
  {
    hide ReadFrame, Drained, DrainedUntil;
    if chunks == [] {
      NothingDrained();
    } else {
      var n := |chunks| - 1;
      var front, last := chunks[..n], chunks[n];
      forall i | 0 <= i <= n ensures |Drained(Joined(front[..i])).1| <= MAX_BUFFERED {
        assert front[..i] == chunks[..i];
      }
      ChunksDoNotMatter(front, accepts);
      DrainedInPieces(Joined(front), last);
      var rest := Drained(Joined(front)).1;
      UntilAccepted(rest + last, accepts);
      assert chunks[..|chunks|] == chunks;
      AcceptedConcat(Drained(Joined(front)).0, Drained(rest + last).0, accepts);
    }
  }

  lemma NothingDrained()
    ensures Drained([]) == ([], [])
  {
  }

  lemma AcceptedConcat(a: seq<Bytes>, b: seq<Bytes>, accepts: Bytes -> bool)
    ensures SomeAccepted(a + b, accepts) <==> SomeAccepted(a, accepts) || SomeAccepted(b, accepts)
  {
    if i :| 0 <= i < |a| && accepts(a[i]) {
      assert (a + b)[i] == a[i];
    }
    if i :| 0 <= i < |b| && accepts(b[i]) {
      assert (a + b)[|a| + i] == b[i];
    }
  }

  // ---------------------------------------------------------------- a frame too large to be cut

  predicate OneLine(payload: Bytes) {
    forall i :: 0 <= i < |payload| ==> payload[i] != 0x0A
  }

  /** The line feeds of a frame whose payload has none. */
  lemma LineFeedsOf(payload: Bytes)
    requires OneLine(payload)
    ensures var f, h := FrameOf(payload), |Header(payload)|;
            forall i :: 0 <= i < |f| ==> (f[i] == 0x0A <==> i == h + 1 || i == h + 3)
  {
    HeaderPlain(payload);
    hide Header;
    var f, h := FrameOf(payload), Header(payload);
    forall i | 0 <= i < |f|
      ensures f[i] == 0x0A <==> i == |h| + 1 || i == |h| + 3
    {
      if i < |h| {
        assert f[i] == h[i];
      } else if i < |h| + 4 {
        assert f[i] == CRLF[i - |h|];
      } else {
        assert f[i] == payload[i - |h| - 4];
      }
    }
  }

  /** The only separator of the end of such a frame is that of the frame, if it is still there. */
  lemma SeparatorOfEnd(payload: Bytes, d: nat)
    requires OneLine(payload) && d <= |FrameOf(payload)|
    ensures var h := |Header(payload)|;
            FindHeaderSeparator(FrameOf(payload)[d..]) == if d <= h then Some(Separator(h - d, 4)) else None
  {
    var f, h := FrameOf(payload), |Header(payload)|;
    LineFeedsOf(payload);
    assert f[h..h + 4] == CRLF;
    hide FrameOf, Header;
    var s := f[d..];
    assert forall i :: 0 <= i < |s| ==> s[i] == f[i + d];
    forall i | 0 <= i <= |s| - 2
      ensures !Occurs(s, LF, i)
    {
      assert s[i..i + 2][0] == s[i] && s[i..i + 2][1] == s[i + 1];
    }
    forall i | Occurs(s, CRLF, i)
      ensures i == h - d
    {
      assert s[i..i + 4][1] == s[i + 1] && s[i..i + 4][3] == s[i + 3];
    }
    if d <= h {
      assert s[h - d..h - d + 4] == f[h..h + 4];
      assert Occurs(s, CRLF, h - d);
    }
  }

  lemma {:induction false} NoNameNoLength(h: Bytes)
    requires forall i :: 0 <= i < |h| ==> Lower(Ascii(h[i])) != 0x63
    ensures LengthDigits(h) == None
  {
    if h != [] {
      assert NAME[0] == 0x63;
      NoNameNoLength(h[1..]);
    }
  }

  /** A header that lost its first byte names no length. */
  lemma HeaderCut(payload: Bytes, d: nat)
    requires 1 <= d <= |Header(payload)|
    ensures ContentLength(Header(payload)[d..]) == None
  {
    var h := Header(payload);
    DecimalDigits(|payload|);
    LabelNamesOnce();
    forall i | d <= i < |h|
      ensures Lower(Ascii(h[i])) != 0x63
    {
      if i >= |LABEL| {
        assert h[i] == Decimal(|payload|)[i - |LABEL|];
      }
    }
    NoNameNoLength(h[d..]);
  }

  lemma LabelNamesOnce()
    ensures forall i :: 0 < i < |LABEL| ==> Lower(Ascii(LABEL[i])) != 0x63
  {
    var letters := "Content-Length: ";
    assert forall i :: 0 < i < |letters| ==> letters[i] != 'C' && letters[i] != 'c' && letters[i] as int < 0x80;
    assert forall i :: 0 <= i < |LABEL| ==> LABEL[i] == letters[i] as int;
  }

  /** Without its first byte a frame holds no payload. */
  lemma EndHoldsNothing(payload: Bytes, d: nat, accepts: Bytes -> bool)
    requires OneLine(payload) && 1 <= d <= |FrameOf(payload)|
    ensures !DrainedUntil(FrameOf(payload)[d..], accepts).1
  {
    hide FindHeaderSeparator, ContentLength;
    var f, h := FrameOf(payload), Header(payload);
    SeparatorOfEnd(payload, d);
    if d <= |h| {
      HeaderCut(payload, d);
      hide Header;
      assert f[d..][..|h| - d] == h[d..];
      assert f[d..][|h| - d + 4..] == f[|h| + 4..];
      SeparatorOfEnd(payload, |h| + 4);
    }
  }

  /**
   A frame of one line that would be accepted, in two chunks: it is found exactly if the first
   chunk fits the buffer.
   */
  lemma CutFrameExact(payload: Bytes, k: nat, accepts: Bytes -> bool)
    requires OneLine(payload) && |payload| <= MAX_SAFE_INTEGER && accepts(payload) && k < |FrameOf(payload)|
    ensures var f := FrameOf(payload);
            Fed([f[..k], f[k..]], accepts).resolved <==> k <= MAX_BUFFERED
  {
    hide FrameOf, ReadFrame;
    var f := FrameOf(payload);
    var first, both := [f[..k]], [f[..k], f[k..]];
    assert first[..0] == [] && both[..1] == first;
    PrefixDrained(payload, k);
    UntilAccepted(f[..k], accepts);
    assert [] + f[..k] == f[..k];
    assert Fed(first, accepts) == State(Truncated(f[..k]), false);
    hide Fed;
    if k <= MAX_BUFFERED {
      assert f[..k] + f[k..] == f;
      assert f + [] == f;
      FrameDrained(payload, []);
      UntilAccepted(f, accepts);
      assert Drained(f).0[0] == payload;
    } else {
      var d := k - MAX_BUFFERED;
      assert Truncated(f[..k]) + f[k..] == f[d..];
      EndHoldsNothing(payload, d, accepts);
    }
    assert Fed(both, accepts) == AfterData(Fed(first, accepts), f[k..], accepts) by {
      FedTwo(first, both, accepts);
    }
  }

  lemma FedTwo(first: seq<Bytes>, both: seq<Bytes>, accepts: Bytes -> bool)
    requires both != [] && both[..|both| - 1] == first
    ensures Fed(both, accepts) == AfterData(Fed(first, accepts), both[|both| - 1], accepts)
  {
  }
}
