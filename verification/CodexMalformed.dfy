/**
 When the cut of a malformed stream matters (packages/agent/src/codex-exec-stream.ts).
 */
module CodexMalformed {
  import opened Prelude
  import opened Utf16
  import opened Utf8
  import opened Json
  import opened CodexEvents
  import opened CodexStream

  // A chunk that fails to decode takes its text with it, so a cut decides how much of the text
  // before the first malformed byte is seen.

  const NONE: Progress := Progress([], [])

  /** The frames and faults of a stream that arrives in these chunks. */
  function Outcomes(chunks: seq<Bytes>, o: Options): seq<Kind> {
    End(WriteAll(INITIAL, chunks, o), o).progress.kinds
  }

  /** The visible text before the first malformed byte. */
  function Before(b: Bytes): Scalars {
    Visible(false, Decode(b).chars)
  }

  /** What is seen if the text so far arrived before the chunk that fails: its frames, the fault, and its last line. */
  function Faulted(p: Progress, o: Options): seq<Kind> {
    p.kinds + [InvalidUtf8] + LineKinds(p.line, o)
  }

  function CutBehind(text: Scalars, n: nat, o: Options): seq<Kind>
    requires n <= |text|
  {
    Faulted(FeedAll(NONE, text[..n], o), o)
  }

  // ---------------------------------------------------------------- cuts are fronts of the text

  lemma {:induction false} BrokenStays(m: Machine, chunks: seq<Bytes>, o: Options)
    requires m.broken
    ensures WriteAll(m, chunks, o) == m
  {
    if chunks != [] {
      BrokenStays(m, chunks[1..], o);
    }
  }

  lemma FaultsAt(front: Bytes, chunk: Bytes, later: seq<Bytes>, o: Options)
    requires Decode(front).wellFormed && !Decode(front + chunk).wellFormed
    ensures End(WriteAll(After(front, o), [chunk] + later, o), o).progress.kinds == Faulted(After(front, o).progress, o)
  {
    hide Decode, FeedAll;
    DecodeConcat(front, chunk);
    var m := After(front, o);
    var broken := Write(m, chunk, o);
    assert ([chunk] + later)[1..] == later;
    BrokenStays(broken, later, o);
  }

  /** Some well-formed front of the stream is what was seen of it. */
  lemma {:induction false} CutIsFront(bytes: Bytes, chunks: seq<Bytes>, o: Options) returns (front: Bytes)
    requires Decode(bytes).wellFormed && !Decode(bytes + Concat(chunks)).wellFormed
    ensures front <= bytes + Concat(chunks) && Decode(front).wellFormed
    ensures End(WriteAll(After(bytes, o), chunks, o), o).progress.kinds == Faulted(After(front, o).progress, o)
    decreases |chunks|
  {
    hide Decode, FeedAll, LineKinds;
    front := bytes;
    assert bytes + [] == bytes;
    if chunks != [] {
      assert bytes + Concat(chunks) == (bytes + chunks[0]) + Concat(chunks[1..]);
      if Decode(bytes + chunks[0]).wellFormed {
        WriteAfter(bytes, chunks[0], o);
        front := CutIsFront(bytes + chunks[0], chunks[1..], o);
      } else {
        FaultsAt(bytes, chunks[0], chunks[1..], o);
        assert [chunks[0]] + chunks[1..] == chunks;
      }
    }
  }

  /** A well-formed front of the bytes is a front of the text. */
  lemma FrontOfText(front: Bytes, b: Bytes, o: Options)
    requires front <= b && Decode(front).wellFormed
    ensures var n := |Visible(false, Decode(front).chars)|;
            n <= |Before(b)| && After(front, o).progress == FeedAll(NONE, Before(b)[..n], o)
  {
    hide Decode, FeedAll;
    var more := b[|front|..];
    assert front + more == b;
    DecodeConcat(front, more);
    var d := Decode(front);
    var e := Decode(d.rest + more);
    VisibleConcat(d.chars, e.chars);
    var n := |Visible(false, d.chars)|;
    assert Before(b)[..n] == Visible(false, d.chars);
  }

  lemma {:induction false} EncodeConcat(a: Scalars, b: Scalars)
    ensures Encode(a + b) == Encode(a) + Encode(b)
  {
    if a == [] {
      assert a + b == b;
    } else {
      assert (a + b)[1..] == a[1..] + b;
      EncodeConcat(a[1..], b);
    }
  }

  /** The bytes behind any front of the text. */
  lemma CutBehindText(b: Bytes, n: nat) returns (front: Bytes, rest: Bytes)
    requires n <= |Before(b)|
    ensures front + rest == b && Decode(front).wellFormed && Visible(false, Decode(front).chars) == Before(b)[..n]
  {
    hide Decode, Encode;
    var chars := Decode(b).chars;
    var k := if chars != [] && chars[0] == BOM then n + 1 else n;
    front, rest := Encode(chars[..k]), Encode(chars[k..]) + Decode(b).rest;
    EncodeConcat(chars[..k], chars[k..]);
    EncodeDecoded(b);
    assert chars[..k] + chars[k..] == chars;
    DecodeEncoded(chars[..k]);
  }

  /** And every front of the text can be what was seen, by cutting right behind it. */
  lemma FrontIsCut(b: Bytes, n: nat, o: Options) returns (chunks: seq<Bytes>)
    requires !Decode(b).wellFormed && n <= |Before(b)|
    ensures Concat(chunks) == b && Outcomes(chunks, o) == CutBehind(Before(b), n, o)
  {
    hide FeedAll, LineKinds;
    var front, rest := CutBehindText(b, n);
    EmptyDecoded();
    hide Decode;
    var last := [rest];
    chunks := [front] + last;
    assert chunks[1..] == last && last[1..] == [];
    assert Concat(last) == rest + [] == rest;
    assert [] + front == front;
    WriteAfter([], front, o);
    FaultsAt(front, rest, [], o);
    assert last + [] == last;
  }

  lemma EmptyDecoded()
    ensures Decode([]) == Decoded([], [], true)
    ensures forall o :: After([], o) == INITIAL
  {
  }

  // ---------------------------------------------------------------- when nothing is seen of a text

  predicate AllBlank(text: Scalars) {
    forall i :: 0 <= i < |text| ==> IsBlank(text[i])
  }

  /** What follows the last line feed. */
  function LastLine(text: Scalars): (line: Scalars)
    ensures |line| <= |text|
  {
    if text == [] || text[|text| - 1] == 0x0A then []
    else LastLine(text[..|text| - 1]) + [text[|text| - 1]]
  }

  /** The lines that were ended. */
  function Ended(text: Scalars): Scalars {
    text[..|text| - |LastLine(text)|]
  }

  /** No line exceeds the frame limit, here and at every earlier character. */
  predicate Fits(text: Scalars, o: Options)
    decreases |text|
  {
    && Size(LastLine(text)) <= o.maxFrameBytes
    && (text == [] || Fits(text[..|text| - 1], o))
  }

  predicate Eventful(line: Scalars, o: Options) {
    exists i :: 0 <= i < |LineKinds(line, o)| && IsEvent(LineKinds(line, o)[i])
  }

  /** Nothing but white space, within the frame limit. */
  predicate Silent(text: Scalars, o: Options) {
    Fits(text, o) && AllBlank(text)
  }

  /** Within the frame limit, blank up to the last line, and no front of that line is an event. */
  predicate Uneventful(text: Scalars, o: Options) {
    && Fits(text, o) && AllBlank(Ended(text))
    && forall n :: |Ended(text)| <= n <= |text| ==> !Eventful(text[|Ended(text)|..n], o)
  }

  lemma {:induction false} LastLineEnds(text: Scalars)
    ensures Ended(text) + LastLine(text) == text
  {
    if text != [] && text[|text| - 1] != 0x0A {
      LastLineEnds(text[..|text| - 1]);
      assert Ended(text) == Ended(text[..|text| - 1]);
    }
  }

  lemma {:induction false} TrimmedAway(line: Scalars)
    ensures TrimLine(line) == [] <==> AllBlank(line)
    decreases |line|
  {
    if line != [] {
      var n := |line| - 1;
      if IsBlank(line[0]) {
        TrimmedAway(line[1..]);
        assert forall i :: 0 < i < |line| ==> line[i] == line[1..][i - 1];
      } else if IsBlank(line[n]) {
        TrimmedAway(line[..n]);
      }
    }
  }

  lemma FeedLast(text: Scalars, o: Options)
    requires text != []
    ensures var n := |text| - 1; FeedAll(NONE, text, o) == FeedOne(FeedAll(NONE, text[..n], o), text[n], o)
  {
    var n := |text| - 1;
    var last := [text[n]];
    assert text == text[..n] + last && last[1..] == [];
    FeedConcat(NONE, text[..n], last, o);
  }

  lemma {:induction false} FedLine(text: Scalars, o: Options)
    ensures FeedAll(NONE, text, o).line == LastLine(text)
    decreases |text|
  {
    if text != [] {
      FeedLast(text, o);
      FedLine(text[..|text| - 1], o);
    }
  }

  lemma {:induction false} FitsFront(text: Scalars, n: nat, o: Options)
    requires n <= |text| && Fits(text, o)
    ensures Fits(text[..n], o)
    decreases |text|
  {
    if n == |text| {
      assert text[..n] == text;
    } else {
      FitsFront(text[..|text| - 1], n, o);
      assert text[..|text| - 1][..n] == text[..n];
    }
  }

  /** Framing has produced nothing exactly when the ended lines are blank and all fit. */
  lemma {:induction false} FedNothing(text: Scalars, o: Options)
    ensures FeedAll(NONE, text, o).kinds == [] <==> Fits(text, o) && AllBlank(Ended(text))
    decreases |text|
  {
    if text == [] {
      assert Size([]) == 0;
    } else {
      var front, c := text[..|text| - 1], text[|text| - 1];
      FeedLast(text, o);
      FedNothing(front, o);
      FedLine(front, o);
      FedMore(front, c, FeedAll(NONE, front, o), o);
      assert text == front + [c];
    }
  }

  lemma FedMore(front: Scalars, c: Scalar, p: Progress, o: Options)
    requires p.line == LastLine(front)
    requires p.kinds == [] <==> Fits(front, o) && AllBlank(Ended(front))
    ensures var text := front + [c]; FeedOne(p, c, o).kinds == [] <==> Fits(text, o) && AllBlank(Ended(text))
  {
    var text := front + [c];
    assert text[..|front|] == front;
    assert Fits(text, o) <==> Size(LastLine(text)) <= o.maxFrameBytes && Fits(front, o);
    assert Fits(front, o) ==> Size(LastLine(front)) <= o.maxFrameBytes;
    hide Fits, TrimLine;
    if c == 0x0A {
      assert Ended(text) == text && Size(LastLine(text)) == 0;
      TrimmedAway(LastLine(front));
      BlankParts(front);
      hide LastLine, Ended;
      assert AllBlank(text) <==> AllBlank(front) by {
        assert forall i :: 0 <= i < |front| ==> text[i] == front[i];
      }
    } else {
      assert Ended(text) == Ended(front);
    }
  }

  lemma BlankParts(text: Scalars)
    ensures AllBlank(text) <==> AllBlank(Ended(text)) && AllBlank(LastLine(text))
  {
    LastLineEnds(text);
    var k := |Ended(text)|;
    assert forall i :: 0 <= i < |text| - k ==> LastLine(text)[i] == text[k + i];
    assert forall i :: k <= i < |text| ==> text[i] == LastLine(text)[i - k];
  }

  // ---------------------------------------------------------------- what a cut can change

  lemma SeenLine(line: Scalars, o: Options)
    requires Size(line) <= o.maxFrameBytes
    ensures LineKinds(line, o) == [] <==> AllBlank(line)
  {
    TrimmedAway(line);
  }

  lemma {:induction false} KindsGrow(text: Scalars, n: nat, o: Options)
    requires n <= |text| && FeedAll(NONE, text, o).kinds == []
    ensures FeedAll(NONE, text[..n], o).kinds == []
  {
    FedNothing(text, o);
    FedNothing(text[..n], o);
    FitsFront(text, n, o);
    EndedFront(text, n);
    assert forall i :: 0 <= i < |Ended(text[..n])| ==> Ended(text[..n])[i] == Ended(text)[i];
  }

  /** Ended lines stay ended. */
  lemma {:induction false} EndedFront(text: Scalars, n: nat)
    requires n <= |text|
    ensures Ended(text[..n]) <= Ended(text)
    ensures |Ended(text)| <= n ==> LastLine(text[..n]) == text[|Ended(text)|..n]
    decreases |text|
  {
    if n == |text| {
      LastLineEnds(text);
      assert text[..n] == text;
    } else {
      var front := text[..|text| - 1];
      EndedFront(front, n);
      assert front[..n] == text[..n];
      if text[|front|] != 0x0A {
        assert Ended(text) == Ended(front);
        assert |Ended(front)| <= n ==> front[|Ended(front)|..n] == text[|Ended(front)|..n];
      } else {
        assert Ended(front) <= front <= Ended(text);
      }
    }
  }

  lemma LineKindsOnlyLine(line: Scalars, o: Options)
    ensures |LineKinds(line, o)| <= 1 && InvalidUtf8 !in LineKinds(line, o)
  {
  }

  lemma {:induction false} NoFaultBefore(p: Progress, text: Scalars, o: Options)
    requires InvalidUtf8 !in p.kinds
    ensures InvalidUtf8 !in FeedAll(p, text, o).kinds
    decreases |text|
  {
    if text != [] {
      hide LineKinds;
      LineKindsOnlyLine(p.line, o);
      NoFaultBefore(FeedOne(p, text[0], o), text[1..], o);
    }
  }

  /** The first failure and what was delivered stay. */
  lemma {:induction false} RunKeeps(ks: seq<Kind>, more: seq<Kind>)
    ensures Run(ks).failure.Some? ==> Run(ks + more).failure == Run(ks).failure
    ensures |Run(ks).delivered| <= |Run(ks + more).delivered|
    decreases |more|
  {
    hide Run, Print;
    if more == [] {
      assert ks + more == ks;
    } else {
      var n := |more| - 1;
      RunKeeps(ks, more[..n]);
      assert ks + more == ks + more[..n] + [more[n]];
      RunAppend(ks + more[..n], more[n]);
    }
  }

  lemma RunOne(k: Kind)
    ensures Run([k]) == Step(START, k)
  {
    var none: seq<Kind> := [];
    assert [k] == none + [k];
    RunAppend(none, k);
  }

  /** A turn that saw anything else before the fault shows it. */
  lemma RunShows(kinds: seq<Kind>, line: seq<Kind>)
    requires InvalidUtf8 !in kinds && |line| <= 1
    ensures Run(kinds + [InvalidUtf8] + line) == Run([InvalidUtf8]) <==>
              kinds == [] && forall i :: 0 <= i < |line| ==> !IsEvent(line[i])
  {
    hide Run, Print;
    RunOne(InvalidUtf8);
    var ks := kinds + [InvalidUtf8] + line;
    if kinds != [] {
      var k := kinds[0];
      RunOne(k);
      RunKeeps([k], ks[1..]);
      assert ks == [k] + ks[1..];
    } else if line == [] {
      assert ks == [InvalidUtf8];
    } else {
      assert ks == [InvalidUtf8] + [line[0]];
      RunAppend([InvalidUtf8], line[0]);
    }
  }

  /** Every cut shows the same frames exactly when there is nothing to show. */
  lemma SilentSeen(text: Scalars, o: Options)
    ensures (forall n :: 0 <= n <= |text| ==> CutBehind(text, n, o) == [InvalidUtf8]) <==> Silent(text, o)
  {
    hide FeedAll, LineKinds, LastLine;
    if Silent(text, o) {
      forall n | 0 <= n <= |text|
        ensures CutBehind(text, n, o) == [InvalidUtf8]
      {
        SilentFront(text, n, o);
      }
    } else {
      var p := FeedAll(NONE, text, o);
      assert text[..|text|] == text;
      FedNothing(text, o);
      FedLine(text, o);
      BlankParts(text);
      if p.kinds == [] {
        SeenLine(p.line, o);
      }
      assert Faulted(p, o) != [InvalidUtf8];
      assert CutBehind(text, |text|, o) != [InvalidUtf8];
    }
  }

  lemma SilentFront(text: Scalars, n: nat, o: Options)
    requires n <= |text| && Silent(text, o)
    ensures CutBehind(text, n, o) == [InvalidUtf8]
  {
    hide FeedAll, LineKinds, LastLine;
    var front := text[..n];
    FitsFront(text, n, o);
    FedNothing(front, o);
    FedLine(front, o);
    BlankParts(front);
    SeenLine(LastLine(front), o);
  }

  /** Every cut gives the same turn exactly when the cuts show no event and nothing else before the fault. */
  lemma UneventfulSeen(text: Scalars, o: Options)
    ensures (forall n :: 0 <= n <= |text| ==> Run(CutBehind(text, n, o)) == Run([InvalidUtf8])) <==> Uneventful(text, o)
  {
    hide FeedAll, LineKinds, LastLine, Run;
    forall n | 0 <= n <= |text|
      ensures Run(CutBehind(text, n, o)) == Run([InvalidUtf8]) <==>
                FeedAll(NONE, text[..n], o).kinds == [] && !Eventful(LastLine(text[..n]), o)
    {
      SeenTurn(text[..n], o);
    }
    FedNothing(text, o);
    assert text[..|text|] == text;
    if FeedAll(NONE, text, o).kinds == [] {
      forall n | 0 <= n <= |text|
        ensures FeedAll(NONE, text[..n], o).kinds == []
        ensures Eventful(LastLine(text[..n]), o) <==> |Ended(text)| <= n && Eventful(text[|Ended(text)|..n], o)
      {
        KindsGrow(text, n, o);
        LastLineSeen(text, n, o);
      }
    } else {
      assert Run(CutBehind(text, |text|, o)) != Run([InvalidUtf8]);
    }
  }

  lemma SeenTurn(text: Scalars, o: Options)
    ensures Run(Faulted(FeedAll(NONE, text, o), o)) == Run([InvalidUtf8]) <==>
              FeedAll(NONE, text, o).kinds == [] && !Eventful(LastLine(text), o)
  {
    hide FeedAll, LineKinds, LastLine, Run;
    var p := FeedAll(NONE, text, o);
    NoFaultBefore(NONE, text, o);
    FedLine(text, o);
    LineKindsOnlyLine(p.line, o);
    RunShows(p.kinds, LineKinds(p.line, o));
  }

  /** Before the last line there is no event to see. */
  lemma LastLineSeen(text: Scalars, n: nat, o: Options)
    requires n <= |text| && AllBlank(Ended(text))
    ensures Eventful(LastLine(text[..n]), o) <==> |Ended(text)| <= n && Eventful(text[|Ended(text)|..n], o)
  {
    EndedFront(text, n);
    if n < |Ended(text)| {
      var front := text[..n];
      assert forall i :: 0 <= i < n ==> front[i] == Ended(text)[i];
      BlankParts(front);
      TrimmedAway(LastLine(front));
    }
  }

  // ---------------------------------------------------------------- the exact conditions

  /**
   The frames and faults of a malformed stream do not depend on how it is cut exactly when its text before the
   first malformed byte is white space within the frame limit.
   */
  lemma MalformedExact(b: Bytes, o: Options)
    requires !Decode(b).wellFormed
    ensures (forall chunks | Concat(chunks) == b :: Outcomes(chunks, o) == Outcomes([b], o)) <==> Silent(Before(b), o)
    ensures Outcomes([b], o) == [InvalidUtf8]
  {
    hide Decode, FeedAll, LineKinds, Silent, Before;
    WholeShowsNothing(b, o);
    SilentSeen(Before(b), o);
    if Silent(Before(b), o) {
      forall chunks | Concat(chunks) == b
        ensures Outcomes(chunks, o) == [InvalidUtf8]
      {
        var n := CutIsBehind(b, chunks, o);
      }
    } else {
      var n :| 0 <= n <= |Before(b)| && CutBehind(Before(b), n, o) != [InvalidUtf8];
      var chunks := FrontIsCut(b, n, o);
    }
  }

  /** And its outcome, turn and answer included, exactly when no cut shows a fault or an event of that text. */
  lemma MalformedTurnExact(b: Bytes, o: Options)
    requires !Decode(b).wellFormed
    ensures (forall chunks | Concat(chunks) == b :: Run(Outcomes(chunks, o)) == Run(Outcomes([b], o))) <==> Uneventful(Before(b), o)
  {
    hide Decode, FeedAll, LineKinds, Uneventful, Before, Run;
    WholeShowsNothing(b, o);
    UneventfulSeen(Before(b), o);
    if Uneventful(Before(b), o) {
      forall chunks | Concat(chunks) == b
        ensures Run(Outcomes(chunks, o)) == Run([InvalidUtf8])
      {
        var n := CutIsBehind(b, chunks, o);
      }
    } else {
      var n :| 0 <= n <= |Before(b)| && Run(CutBehind(Before(b), n, o)) != Run([InvalidUtf8]);
      var chunks := FrontIsCut(b, n, o);
    }
  }

  lemma CutIsBehind(b: Bytes, chunks: seq<Bytes>, o: Options) returns (n: nat)
    requires !Decode(b).wellFormed && Concat(chunks) == b
    ensures n <= |Before(b)| && Outcomes(chunks, o) == CutBehind(Before(b), n, o)
  {
    EmptyDecoded();
    hide Decode, FeedAll, LineKinds;
    assert [] + b == b;
    var front := CutIsFront([], chunks, o);
    FrontOfText(front, b, o);
    n := |Visible(false, Decode(front).chars)|;
  }

  lemma WholeShowsNothing(b: Bytes, o: Options)
    requires !Decode(b).wellFormed
    ensures Outcomes([b], o) == [InvalidUtf8] && Concat([b]) == b
  {
    EmptyDecoded();
    hide Decode;
    var none: seq<Bytes> := [];
    assert [b] + none == [b] && [b][1..] == none;
    assert [] + b == b;
    FaultsAt([], b, none, o);
    assert Concat(none) == [] && b + [] == b;
    assert TrimLine([]) == [];
  }

  // ---------------------------------------------------------------- a stream that depends on its cut

  /** A line that is no JSON, and a byte that is no UTF-8. */
  const BAD_LINE: Bytes := [0x41, 0x0A]
  const BAD_BYTE: Bytes := [0xFF]

  function NoJson(): Options {
    Options(100, 100, (line: Scalars) => None)
  }

  lemma BadLineFed()
    ensures Decode(BAD_LINE) == Decoded([0x41, 0x0A], [], true)
    ensures FeedAll(Progress([], []), [0x41, 0x0A], NoJson()) == Progress([NotJson], [])
  {
    var text: Scalars := [0x41, 0x0A];
    var line: Scalars := [0x41];
    assert text[1..] == [0x0A] && [0x0A as Scalar][1..] == [] && line[1..] == [];
    assert Encode([0x0A]) == [0x0A];
    assert Encode(text) == BAD_LINE;
    DecodeEncoded(text);
    assert [] + line == line;
    assert Size(line) == 1;
    assert LineKinds(line, NoJson()) == [NotJson];
  }

  lemma SplitFails()
    ensures var o := NoJson();
            End(Write(Write(INITIAL, BAD_LINE, o), BAD_BYTE, o), o).progress.kinds == [NotJson, InvalidUtf8]
  {
    BadLineFed();
    assert [] + BAD_LINE == BAD_LINE && [] + BAD_BYTE == BAD_BYTE;
    assert DecodeOne(BAD_BYTE) == Malformed;
  }

  lemma WholeFails()
    ensures var o := NoJson();
            End(Write(INITIAL, BAD_LINE + BAD_BYTE, o), o).progress.kinds == [InvalidUtf8]
  {
    BadLineFed();
    DecodeConcat(BAD_LINE, BAD_BYTE);
    assert [] + (BAD_LINE + BAD_BYTE) == BAD_LINE + BAD_BYTE && [] + BAD_BYTE == BAD_BYTE;
    assert DecodeOne(BAD_BYTE) == Malformed;
  }

  /** With malformed input the cut matters: a chunk that breaks takes its text with it. */
  lemma MalformedDependsOnChunks()
    ensures var o := NoJson();
            && Run(End(Write(Write(INITIAL, BAD_LINE, o), BAD_BYTE, o), o).progress.kinds).failure == Some(Because(NotJson))
            && Run(End(Write(INITIAL, BAD_LINE + BAD_BYTE, o), o).progress.kinds).failure == Some(Because(InvalidUtf8))
  {
    SplitFails();
    WholeFails();
    var split, whole: seq<Kind> := [NotJson, InvalidUtf8], [InvalidUtf8];
    assert split[..1] == [NotJson] && [NotJson][..0] == [] && whole[..0] == [];
    assert Run([NotJson]) == Step(START, NotJson);
  }
}
