/**
 What a Codex run answers, in terms of its lines (packages/agent/src/codex-exec-stream.ts).
 */
module CodexAnswer {
  import opened Prelude
  import opened Utf16
  import opened Utf8
  import opened Json
  import opened CodexEvents
  import opened CodexStream
  import opened CodexMalformed

  // ---------------------------------------------------------------- lines and what they say

  /** A line that is not blank: too long to be read, or what JSON.parse makes of it. */
  datatype Line = TooLong | Read(parsed: Option<Value>)

  predicate IsObject(l: Line) {
    l.Read? && l.parsed.Some? && l.parsed.value.Obj?
  }

  /** A member of the event. */
  function At(l: Line, key: string): Option<Value>
    requires IsObject(l)
  {
    Lookup(l.parsed.value.fields, Lit(key))
  }

  /** An object whose `type` is a string. */
  predicate IsEnvelope(l: Line) {
    IsObject(l) && At(l, "type").Some? && At(l, "type").value.Str?
  }

  predicate IsType(l: Line, name: string) {
    IsObject(l) && At(l, "type") == Some(Str(Lit(name)))
  }

  /** The value reads as the word: the word itself, and an array of nothing else. */
  predicate Names(v: Value, word: Text) {
    match v
    case Str(s) => s == word
    case Num(n) => n.text == word
    case Arr(items) => |items| == 1 && Names(items[0], word)
    case _ => false
  }

  /** A completed item that is an agent's or assistant's message, final or of no phase. */
  predicate IsFinal(l: Line) {
    && IsType(l, "item.completed")
    && At(l, "item").Some? && At(l, "item").value.Obj?
    && var item := At(l, "item").value.fields;
    && Lookup(item, Lit("type")).Some?
    && (Names(Lookup(item, Lit("type")).value, Lit("agent_message")) ||
        Names(Lookup(item, Lit("type")).value, Lit("assistant_message")))
    && (Lookup(item, Lit("phase")) == None || Lookup(item, Lit("phase")) == Some(Str(Lit("final_answer"))))
  }

  /** The pieces one after the other. */
  function Flat(pieces: seq<Text>): Text {
    if pieces == [] then [] else Flat(pieces[..|pieces| - 1]) + pieces[|pieces| - 1]
  }

  /** A part of a content contributes its text, if it is an object with one. */
  predicate IsPiece(piece: Text, part: Value) {
    if part.Obj? && Lookup(part.fields, Lit("text")).Some? && Lookup(part.fields, Lit("text")).value.Str?
    then Lookup(part.fields, Lit("text")) == Some(Str(piece))
    else piece == []
  }

  /** The text of an item: its `text`, or else its content as a string, or else the pieces of its content in order. */
  ghost predicate TextOf(item: seq<Field>, t: Text) {
    var text, content := Lookup(item, Lit("text")), Lookup(item, Lit("content"));
    if text.Some? && text.value.Str? then text == Some(Str(t))
    else if content.Some? && content.value.Str? then content == Some(Str(t))
    else if content.Some? && content.value.Arr? then
      exists pieces ::
        && |pieces| == |content.value.items|
        && (forall i :: 0 <= i < |pieces| ==> IsPiece(pieces[i], content.value.items[i]))
        && t == Flat(pieces)
    else t == []
  }

  ghost predicate Speaks(l: Line, t: Text) {
    IsFinal(l) && TextOf(At(l, "item").value.fields, t)
  }

  /** What a repeated completion has to agree on. */
  function Signature(l: Line): Text {
    if IsObject(l) then Print(l.parsed.value) else []
  }

  function UsageAt(l: Line): Option<Usage> {
    if IsObject(l) then ParseUsage(At(l, "usage")) else None
  }

  // ---------------------------------------------------------------- when a run answers

  /** Nothing starts a turn in between. */
  predicate SameTurn(ls: seq<Line>, i: int, j: int) {
    0 <= i < j <= |ls| && forall k :: i < k < j ==> !IsType(ls[k], "turn.started")
  }

  /** A line that may stand where it does. */
  ghost predicate Fine(ls: seq<Line>, j: nat, maxFinalBytes: nat)
    requires j < |ls|
  {
    && IsEnvelope(ls[j]) && !IsType(ls[j], "error") && !IsType(ls[j], "turn.failed")
    && (IsFinal(ls[j]) ==>
          && (forall t :: Speaks(ls[j], t) ==> Utf8Length(t) <= maxFinalBytes)
          && forall i :: SameTurn(ls, i, j) ==> !IsType(ls[i], "turn.completed"))
    && (IsType(ls[j], "turn.completed") ==>
          forall i :: SameTurn(ls, i, j) && IsType(ls[i], "turn.completed") ==>
            Signature(ls[i]) == Signature(ls[j]))
  }

  /** In the last turn. */
  predicate InLastTurn(ls: seq<Line>, i: int) {
    0 <= i < |ls| && SameTurn(ls, i, |ls|) && !IsType(ls[i], "turn.started")
  }

  /** The first completion of the last turn. */
  predicate Completes(ls: seq<Line>, c: int) {
    && InLastTurn(ls, c) && IsType(ls[c], "turn.completed")
    && forall i :: 0 <= i < c && InLastTurn(ls, i) ==> !IsType(ls[i], "turn.completed")
  }

  /** The last final message of the last turn. */
  predicate SpeaksLast(ls: seq<Line>, a: int) {
    InLastTurn(ls, a) && IsFinal(ls[a]) && forall i :: a < i < |ls| ==> !IsFinal(ls[i])
  }

  /**
   Every line may stand where it does; the last turn was completed, first with this usage; and its
   last final message says this text, which is not blank.
   */
  ghost predicate Answers(ls: seq<Line>, maxFinalBytes: nat, text: Text, usage: Option<Usage>) {
    && (forall j :: 0 <= j < |ls| ==> Fine(ls, j, maxFinalBytes))
    && (exists c :: Completes(ls, c) && usage == UsageAt(ls[c]))
    && (exists a :: SpeaksLast(ls, a) && Speaks(ls[a], text))
    && Trim(text) != []
  }

  // ---------------------------------------------------------------- kinds of lines

  function KindOf(l: Line, maxFinalBytes: nat): Kind {
    if l.TooLong? then OverLimit else FrameKind(l.parsed, maxFinalBytes)
  }

  function KindsOf(ls: seq<Line>, maxFinalBytes: nat): (ks: seq<Kind>)
    ensures |ks| == |ls| && forall i :: 0 <= i < |ks| ==> ks[i] == KindOf(ls[i], maxFinalBytes)
  {
    seq(|ls|, i requires 0 <= i < |ls| => KindOf(ls[i], maxFinalBytes))
  }

  lemma TypesDiffer()
    ensures Lit("error") != Lit("turn.failed") && Lit("error") != Lit("turn.started") && Lit("error") != Lit("turn.completed")
    ensures Lit("error") != Lit("item.completed") && Lit("turn.failed") != Lit("turn.started")
    ensures Lit("turn.failed") != Lit("turn.completed") && Lit("turn.failed") != Lit("item.completed")
    ensures Lit("turn.started") != Lit("turn.completed") && Lit("turn.started") != Lit("item.completed")
    ensures Lit("turn.completed") != Lit("item.completed")
  {
    assert |Lit("error")| == 5 && |Lit("turn.failed")| == 11 && |Lit("turn.started")| == 12;
    assert Lit("turn.completed")[0] != Lit("item.completed")[0];
  }

  lemma {:induction false} NamesExact(v: Value, word: Text)
    requires word != [] && word !in {Lit("null"), Lit("true"), Lit("false"), Lit("[object Object]")}
    requires forall i :: 0 <= i < |word| ==> word[i] != 0x2C
    ensures ToText(v) == word <==> Names(v, word)
  {
    hide Lit;
    if v.Arr? && |v.items| == 1 {
      NamesExact(v.items[0], word);
      assert ToText(v.items[0]) + [] == ToText(v.items[0]);
      assert JoinTexts(v.items) == if v.items[0].Null? then [] else ToText(v.items[0]);
    } else if v.Arr? && |v.items| > 1 {
      var first := if v.items[0].Null? then [] else ToText(v.items[0]);
      assert JoinTexts(v.items) == first + ([0x2C] + JoinTexts(v.items[1..]));
      assert JoinTexts(v.items)[|first|] == 0x2C;
    }
  }

  lemma WordsPlain()
    ensures forall word :: word in {Lit("agent_message"), Lit("assistant_message")} ==>
              && word != [] && word !in {Lit("null"), Lit("true"), Lit("false"), Lit("[object Object]")}
              && forall i :: 0 <= i < |word| ==> word[i] != 0x2C
  {
    assert |Lit("agent_message")| == 13 && |Lit("assistant_message")| == 17;
    assert |Lit("null")| == 4 && |Lit("true")| == 4 && |Lit("false")| == 5 && |Lit("[object Object]")| == 15;
    assert forall i :: 0 <= i < 13 ==> Lit("agent_message")[i] == "agent_message"[i] as int;
    assert forall i :: 0 <= i < 17 ==> Lit("assistant_message")[i] == "assistant_message"[i] as int;
  }

  function Pieces(parts: seq<Value>): (r: seq<Text>)
    ensures |r| == |parts|
  {
    if parts == [] then []
    else
      [if parts[0].Obj? && IsStr(Lookup(parts[0].fields, Lit("text"))) then Lookup(parts[0].fields, Lit("text")).value.s else []] +
      Pieces(parts[1..])
  }

  lemma {:induction false} FlatCons(piece: Text, pieces: seq<Text>)
    ensures Flat([piece] + pieces) == piece + Flat(pieces)
    decreases |pieces|
  {
    var all := [piece] + pieces;
    if pieces == [] {
      var none: seq<Text> := [];
      assert all[..0] == none && all == [piece];
      assert piece + [] == piece && [] + piece == piece;
    } else {
      var n := |pieces| - 1;
      FlatCons(piece, pieces[..n]);
      assert all[..|all| - 1] == [piece] + pieces[..n];
    }
  }

  lemma {:induction false} PiecesFlat(parts: seq<Value>, pieces: seq<Text>)
    requires |pieces| == |parts| && forall i :: 0 <= i < |pieces| ==> IsPiece(pieces[i], parts[i])
    ensures Flat(pieces) == PartTexts(parts)
    decreases |parts|
  {
    hide Lit;
    if parts != [] {
      PiecesFlat(parts[1..], pieces[1..]);
      assert pieces == [pieces[0]] + pieces[1..];
      FlatCons(pieces[0], pieces[1..]);
    }
  }

  lemma {:induction false} PiecesExist(parts: seq<Value>)
    ensures forall i :: 0 <= i < |parts| ==> IsPiece(Pieces(parts)[i], parts[i])
  {
    hide Lit;
    if parts != [] {
      PiecesExist(parts[1..]);
      forall i | 0 < i < |parts|
        ensures IsPiece(Pieces(parts)[i], parts[i])
      {
        assert Pieces(parts)[i] == Pieces(parts[1..])[i - 1] && parts[i] == parts[1..][i - 1];
      }
    }
  }

  lemma TextExact(item: seq<Field>, t: Text)
    ensures TextOf(item, t) <==> t == ItemText(item)
  {
    hide Lit;
    var content := Lookup(item, Lit("content"));
    if content.Some? && content.value.Arr? {
      var parts := content.value.items;
      PiecesExist(parts);
      PiecesFlat(parts, Pieces(parts));
      forall pieces | |pieces| == |parts| && forall i :: 0 <= i < |pieces| ==> IsPiece(pieces[i], parts[i])
        ensures Flat(pieces) == PartTexts(parts)
      {
        PiecesFlat(parts, pieces);
      }
    }
  }

  lemma FinalExact(l: Line)
    requires IsType(l, "item.completed")
    ensures IsFinal(l) <==> IsFinalMessage(At(l, "item"))
  {
    hide Lit, ToText, Names;
    WordsPlain();
    if At(l, "item").Some? && At(l, "item").value.Obj? {
      var tag := Lookup(At(l, "item").value.fields, Lit("type"));
      if tag.Some? {
        NamesExact(tag.value, Lit("agent_message"));
        NamesExact(tag.value, Lit("assistant_message"));
      }
    }
  }

  /** The kind of a line, in terms of what the line says. */
  lemma KindExact(l: Line, maxFinalBytes: nat)
    ensures var k := KindOf(l, maxFinalBytes);
            && (k.Started? <==> IsType(l, "turn.started"))
            && (k.Completed? <==> IsType(l, "turn.completed"))
            && (k.Completed? ==> Print(k.event) == Signature(l) && k.usage == UsageAt(l))
            && (k.Message? || k.LongMessage? <==> IsFinal(l))
            && (k.Message? ==> Speaks(l, k.text) && Utf8Length(k.text) <= maxFinalBytes)
            && (k.LongMessage? ==> exists t :: Speaks(l, t) && Utf8Length(t) > maxFinalBytes)
            && (k.Started? || k.Completed? || k.Message? || k.LongMessage? || k.Other? <==>
                  IsEnvelope(l) && !IsType(l, "error") && !IsType(l, "turn.failed"))
  {
    TypesDiffer();
    hide Lit, ParseUsage, IsFinalMessage, ItemText, Utf8Length, TextOf, Print;
    if IsType(l, "item.completed") {
      FinalExact(l);
      if IsFinal(l) {
        var item := At(l, "item").value.fields;
        TextExact(item, ItemText(item));
        assert Speaks(l, ItemText(item));
      }
    }
  }

  lemma SpeaksOnce(l: Line, t: Text, u: Text)
    requires Speaks(l, t) && Speaks(l, u)
    ensures t == u
  {
    hide Lit;
    TextExact(At(l, "item").value.fields, t);
    TextExact(At(l, "item").value.fields, u);
  }

  // ---------------------------------------------------------------- turns

  /** The last turn of the machine is the last turn of the lines. */
  lemma {:induction false} TurnStartMeans(ks: seq<Kind>)
    ensures TurnStart(ks) > 0 ==> ks[TurnStart(ks) - 1].Started?
    ensures forall i :: TurnStart(ks) <= i < |ks| ==> !ks[i].Started?
  {
    if ks != [] && !ks[|ks| - 1].Started? {
      TurnStartMeans(ks[..|ks| - 1]);
    }
  }

  lemma StartedExact(ls: seq<Line>, maxFinalBytes: nat)
    ensures var ks := KindsOf(ls, maxFinalBytes);
            && (forall i :: 0 <= i < |ls| ==> (ks[i].Started? <==> IsType(ls[i], "turn.started")))
            && (forall i :: 0 <= i < |ls| ==> (ks[i].Completed? <==> IsType(ls[i], "turn.completed")))
            && (forall i :: 0 <= i < |ls| ==> (ks[i].Message? ==> IsFinal(ls[i])))
  {
    hide KindOf, IsType, IsFinal;
    forall i | 0 <= i < |ls|
      ensures var k := KindsOf(ls, maxFinalBytes)[i];
              && (k.Started? <==> IsType(ls[i], "turn.started")) && (k.Completed? <==> IsType(ls[i], "turn.completed"))
              && (k.Message? ==> IsFinal(ls[i]))
    {
      KindExact(ls[i], maxFinalBytes);
    }
  }

  /** A line other than a start is in the current turn of the first j lines exactly if no start follows it there. */
  lemma InTurn(ls: seq<Line>, maxFinalBytes: nat, i: int, j: nat)
    requires 0 <= i < j <= |ls| && !IsType(ls[i], "turn.started")
    ensures TurnStart(KindsOf(ls, maxFinalBytes)[..j]) <= i <==> SameTurn(ls, i, j)
  {
    hide KindsOf, IsType, IsFinal, TurnStart;
    StartedExact(ls, maxFinalBytes);
    var ks := KindsOf(ls, maxFinalBytes);
    TurnStartMeans(ks[..j]);
    var start := TurnStart(ks[..j]);
    if start <= i {
      forall k | i < k < j
        ensures !IsType(ls[k], "turn.started")
      {
        assert ks[..j][k] == ks[k];
      }
    } else {
      assert ks[..j][start - 1] == ks[start - 1];
      assert start - 1 != i;
    }
  }

  /** A completion of the current turn of the first j lines. */
  predicate CompletedBefore(ls: seq<Line>, i: int, j: int) {
    0 <= i < j <= |ls| && SameTurn(ls, i, j) && IsType(ls[i], "turn.completed")
  }

  lemma StartsAreNoCompletions(l: Line)
    ensures IsType(l, "turn.started") ==> !IsType(l, "turn.completed") && !IsFinal(l)
    ensures IsType(l, "turn.completed") ==> !IsFinal(l)
  {
    TypesDiffer();
    hide Lit;
  }

  lemma CompletedExact(ls: seq<Line>, maxFinalBytes: nat, i: int, j: nat)
    requires j <= |ls|
    ensures var before := KindsOf(ls, maxFinalBytes)[..j];
            CompletedBefore(ls, i, j) <==> TurnStart(before) <= i < j && before[i].Completed?
  {
    hide KindsOf, IsType, IsFinal;
    StartedExact(ls, maxFinalBytes);
    if 0 <= i < j && IsType(ls[i], "turn.completed") {
      StartsAreNoCompletions(ls[i]);
      InTurn(ls, maxFinalBytes, i, j);
    }
  }

  /** The completion that ends the current turn is the first one. */
  lemma EndsExact(ls: seq<Line>, maxFinalBytes: nat, i: int, j: nat)
    requires j <= |ls|
    ensures EndsTurn(KindsOf(ls, maxFinalBytes)[..j], i) <==>
              CompletedBefore(ls, i, j) && forall k :: 0 <= k < i ==> !CompletedBefore(ls, k, j)
  {
    hide KindsOf, CompletedBefore, TurnStart;
    var before := KindsOf(ls, maxFinalBytes)[..j];
    forall k: int
      ensures CompletedBefore(ls, k, j) <==> TurnStart(before) <= k < j && before[k].Completed?
    {
      CompletedExact(ls, maxFinalBytes, k, j);
    }
  }

  lemma {:induction false} FirstCompleted(ls: seq<Line>, j: nat, i: nat) returns (first: nat)
    requires CompletedBefore(ls, i, j)
    ensures first <= i && CompletedBefore(ls, first, j) && forall k :: 0 <= k < first ==> !CompletedBefore(ls, k, j)
  {
    first := i;
    if k :| 0 <= k < i && CompletedBefore(ls, k, j) {
      first := FirstCompleted(ls, j, k);
    }
  }

  /** Acceptable to the machine is fine where it stands, once all before it is. */
  lemma AcceptableExact(ls: seq<Line>, maxFinalBytes: nat, j: nat)
    requires j < |ls| && forall i :: 0 <= i < j ==> Fine(ls, i, maxFinalBytes)
    ensures var ks := KindsOf(ls, maxFinalBytes); Acceptable(ks[..j], ks[j]) <==> Fine(ls, j, maxFinalBytes)
  {
    hide KindsOf, KindOf, IsType, IsFinal, IsEnvelope, Print, Signature, EndsTurn, Speaks, SameTurn, Utf8Length;
    var ks := KindsOf(ls, maxFinalBytes);
    var k := ks[j];
    KindExact(ls[j], maxFinalBytes);
    StartedExact(ls, maxFinalBytes);
    assert k == KindOf(ls[j], maxFinalBytes);
    StartsAreNoCompletions(ls[j]);
    forall i
      ensures EndsTurn(ks[..j], i) <==> CompletedBefore(ls, i, j) && forall m :: 0 <= m < i ==> !CompletedBefore(ls, m, j)
    {
      EndsExact(ls, maxFinalBytes, i, j);
    }
    if k.Message? {
      MessageExact(ls, maxFinalBytes, j);
    } else if k.Completed? {
      CompletionExact(ls, maxFinalBytes, j);
    } else if k.LongMessage? {
      var t :| Speaks(ls[j], t) && Utf8Length(t) > maxFinalBytes;
    }
  }

  lemma MessageExact(ls: seq<Line>, maxFinalBytes: nat, j: nat)
    requires j < |ls| && KindsOf(ls, maxFinalBytes)[j].Message?
    requires forall i :: EndsTurn(KindsOf(ls, maxFinalBytes)[..j], i) <==>
               CompletedBefore(ls, i, j) && forall m :: 0 <= m < i ==> !CompletedBefore(ls, m, j)
    ensures (forall i :: !EndsTurn(KindsOf(ls, maxFinalBytes)[..j], i)) <==>
              forall i :: SameTurn(ls, i, j) ==> !IsType(ls[i], "turn.completed")
    ensures forall t :: Speaks(ls[j], t) ==> Utf8Length(t) <= maxFinalBytes
  {
    hide KindOf, IsType, Utf8Length, EndsTurn;
    KindExact(ls[j], maxFinalBytes);
    var text := KindsOf(ls, maxFinalBytes)[j].text;
    forall t | Speaks(ls[j], t)
      ensures t == text
    {
      SpeaksOnce(ls[j], t, text);
    }
    if i :| SameTurn(ls, i, j) && IsType(ls[i], "turn.completed") {
      var first := FirstCompleted(ls, j, i);
    }
  }

  lemma CompletionExact(ls: seq<Line>, maxFinalBytes: nat, j: nat)
    requires j < |ls| && KindsOf(ls, maxFinalBytes)[j].Completed?
    requires forall i :: 0 <= i < j ==> Fine(ls, i, maxFinalBytes)
    requires forall i :: EndsTurn(KindsOf(ls, maxFinalBytes)[..j], i) <==>
               CompletedBefore(ls, i, j) && forall m :: 0 <= m < i ==> !CompletedBefore(ls, m, j)
    ensures var ks := KindsOf(ls, maxFinalBytes);
            (forall i :: EndsTurn(ks[..j], i) ==> Print(ks[i].event) == Print(ks[j].event)) <==>
            forall i :: SameTurn(ls, i, j) && IsType(ls[i], "turn.completed") ==> Signature(ls[i]) == Signature(ls[j])
  {
    hide KindOf, IsType, IsFinal, IsEnvelope, Print, Signature, EndsTurn, Speaks, SameTurn;
    var ks := KindsOf(ls, maxFinalBytes);
    forall i | 0 <= i <= j && IsType(ls[i], "turn.completed")
      ensures ks[i].Completed? && Print(ks[i].event) == Signature(ls[i])
    {
      KindExact(ls[i], maxFinalBytes);
    }
    KindExact(ls[j], maxFinalBytes);
    forall i | CompletedBefore(ls, i, j)
      ensures exists first :: EndsTurn(ks[..j], first) && Signature(ls[first]) == Signature(ls[i])
    {
      var first := FirstCompleted(ls, j, i);
      assert EndsTurn(ks[..j], first);
      if first < i {
        SameTurnFront(ls, first, i, j);
        assert Fine(ls, i, maxFinalBytes);
      }
    }
    SameTurnOrder(ls, j);
  }

  lemma SameTurnFront(ls: seq<Line>, a: int, b: int, j: int)
    requires SameTurn(ls, a, j) && a < b < j
    ensures SameTurn(ls, a, b)
  {
  }

  lemma SameTurnOrder(ls: seq<Line>, j: nat)
    ensures forall i :: SameTurn(ls, i, j) ==> 0 <= i < j <= |ls|
  {
  }

  lemma {:induction false} AllAcceptableExact(ls: seq<Line>, maxFinalBytes: nat, n: nat)
    requires n <= |ls|
    ensures (forall j :: 0 <= j < n ==> Acceptable(KindsOf(ls, maxFinalBytes)[..j], KindsOf(ls, maxFinalBytes)[j])) <==>
            forall j :: 0 <= j < n ==> Fine(ls, j, maxFinalBytes)
  {
    hide Acceptable, Fine, KindsOf;
    if n > 0 {
      AllAcceptableExact(ls, maxFinalBytes, n - 1);
      if forall j :: 0 <= j < n - 1 ==> Fine(ls, j, maxFinalBytes) {
        AcceptableExact(ls, maxFinalBytes, n - 1);
      }
    }
  }

  lemma CompletesExact(ls: seq<Line>, maxFinalBytes: nat, c: int)
    ensures EndsTurn(KindsOf(ls, maxFinalBytes), c) <==> Completes(ls, c)
    ensures Completes(ls, c) ==> KindsOf(ls, maxFinalBytes)[c].Completed? && KindsOf(ls, maxFinalBytes)[c].usage == UsageAt(ls[c])
  {
    hide IsFinal, UsageAt, KindOf;
    var ks := KindsOf(ls, maxFinalBytes);
    assert ks[..|ls|] == ks;
    EndsExact(ls, maxFinalBytes, c, |ls|);
    hide EndsTurn, IsType, SameTurn, KindsOf;
    forall i | 0 <= i < |ls|
      ensures CompletedBefore(ls, i, |ls|) <==> InLastTurn(ls, i) && IsType(ls[i], "turn.completed")
    {
      StartsAreNoCompletions(ls[i]);
    }
    if Completes(ls, c) {
      KindExact(ls[c], maxFinalBytes);
    }
  }

  lemma SpeaksLastExact(ls: seq<Line>, maxFinalBytes: nat, a: int)
    requires forall j :: 0 <= j < |ls| ==> Fine(ls, j, maxFinalBytes)
    ensures IsAnswer(KindsOf(ls, maxFinalBytes), a) <==> SpeaksLast(ls, a)
    ensures SpeaksLast(ls, a) ==> forall t :: Speaks(ls[a], t) <==> t == KindsOf(ls, maxFinalBytes)[a].text
  {
    hide KindOf, IsType, IsFinal, SameTurn, Speaks, Utf8Length;
    var ks := KindsOf(ls, maxFinalBytes);
    forall i | 0 <= i < |ls|
      ensures ks[i].Message? <==> IsFinal(ls[i])
      ensures ks[i].Message? ==> Speaks(ls[i], ks[i].text) && !IsType(ls[i], "turn.started")
    {
      KindExact(ls[i], maxFinalBytes);
      StartsAreNoCompletions(ls[i]);
      assert Fine(ls, i, maxFinalBytes);
    }
    hide KindsOf, Fine;
    assert ks[..|ls|] == ks;
    if 0 <= a < |ls| && IsFinal(ls[a]) {
      InTurn(ls, maxFinalBytes, a, |ls|);
      forall t | Speaks(ls[a], t)
        ensures t == ks[a].text
      {
        SpeaksOnce(ls[a], t, ks[a].text);
      }
    }
  }

  /** A run answers with a text and a usage exactly if its lines do. */
  lemma AnswerExact(ls: seq<Line>, maxFinalBytes: nat, text: Text, usage: Option<Usage>)
    ensures Outcome(Run(KindsOf(ls, maxFinalBytes))) == Answer(text, usage) <==> Answers(ls, maxFinalBytes, text, usage)
  {
    hide KindsOf, Run, Acceptable, Fine, EndsTurn, IsAnswer, Completes, SpeaksLast, Speaks, UsageAt, Trim;
    var ks := KindsOf(ls, maxFinalBytes);
    ResultIsLastTurn(ks);
    AllAcceptableExact(ls, maxFinalBytes, |ls|);
    forall c
      ensures EndsTurn(ks, c) <==> Completes(ls, c)
      ensures EndsTurn(ks, c) ==> 0 <= c < |ks| && ks[c].Completed? && ks[c].usage == UsageAt(ls[c])
    {
      CompletesExact(ls, maxFinalBytes, c);
      Ends(ks, c);
    }
    if forall j :: 0 <= j < |ls| ==> Fine(ls, j, maxFinalBytes) {
      forall a
        ensures IsAnswer(ks, a) <==> SpeaksLast(ls, a)
        ensures IsAnswer(ks, a) ==> 0 <= a < |ks| && ks[a].Message? && forall t :: Speaks(ls[a], t) <==> t == ks[a].text
      {
        SpeaksLastExact(ls, maxFinalBytes, a);
        Ends(ks, a);
      }
    }
  }

  lemma Ends(ks: seq<Kind>, i: int)
    ensures EndsTurn(ks, i) ==> 0 <= i < |ks| && ks[i].Completed?
    ensures IsAnswer(ks, i) ==> 0 <= i < |ks| && ks[i].Message?
  {
  }

  /** The events among the lines, in order. */
  function EventsOf(ls: seq<Line>): seq<Value> {
    if ls == [] then []
    else
      var n := |ls| - 1;
      EventsOf(ls[..n]) + if IsEnvelope(ls[n]) then [ls[n].parsed.value] else []
  }

  lemma EventExact(l: Line, maxFinalBytes: nat)
    ensures var k := KindOf(l, maxFinalBytes); IsEvent(k) <==> IsEnvelope(l)
    ensures IsEnvelope(l) ==> KindOf(l, maxFinalBytes).event == l.parsed.value
  {
    hide Lit, ParseUsage, IsFinalMessage, ItemText, Utf8Length;
  }

  /** Every event is handed on, once and in order, whatever becomes of the run. */
  lemma {:induction false} DeliveredExact(ls: seq<Line>, maxFinalBytes: nat)
    ensures Run(KindsOf(ls, maxFinalBytes)).delivered == EventsOf(ls)
  {
    hide KindOf, IsEnvelope, Print;
    if ls != [] {
      var n := |ls| - 1;
      DeliveredExact(ls[..n], maxFinalBytes);
      EventExact(ls[n], maxFinalBytes);
      var ks := KindsOf(ls, maxFinalBytes);
      assert ks[..n] == KindsOf(ls[..n], maxFinalBytes);
      assert EventsOf(ls[..n]) + [] == EventsOf(ls[..n]);
    }
  }

  // ---------------------------------------------------------------- from bytes to lines

  /** The lines with a line feed between any two. */
  function JoinLines(lines: seq<Scalars>): Scalars {
    if lines == [] then []
    else if |lines| == 1 then lines[0]
    else lines[0] + [0x0A] + JoinLines(lines[1..])
  }

  predicate OneLine(line: Scalars) {
    forall i :: 0 <= i < |line| ==> line[i] != 0x0A
  }

  /** What is between the line feeds of a text. */
  predicate AreLines(lines: seq<Scalars>, text: Scalars) {
    lines != [] && (forall i :: 0 <= i < |lines| ==> OneLine(lines[i])) && JoinLines(lines) == text
  }

  /** Lines that are too long, and lines that are not blank, each without the white space around it. */
  function LinesRead(lines: seq<Scalars>, o: Options): seq<Line> {
    if lines == [] then []
    else LineRead(lines[0], o) + LinesRead(lines[1..], o)
  }

  function LineRead(line: Scalars, o: Options): seq<Line> {
    if Size(line) > o.maxFrameBytes then [TooLong]
    else if AllBlank(line) then []
    else [Read(o.parse(TrimLine(line)))]
  }

  /** Trimming takes the white space at both ends, and nothing else. */
  lemma {:induction false} TrimExact(line: Scalars) returns (front: Scalars, back: Scalars)
    ensures line == front + TrimLine(line) + back && AllBlank(front) && AllBlank(back)
    ensures var t := TrimLine(line); t != [] ==> !IsBlank(t[0]) && !IsBlank(t[|t| - 1])
    decreases |line|
  {
    front, back := [], [];
    if line != [] {
      var n := |line| - 1;
      if IsBlank(line[0]) {
        var more;
        more, back := TrimExact(line[1..]);
        front := [line[0]] + more;
        TrimmedFront(line, TrimLine(line[1..]), more, back);
      } else if IsBlank(line[n]) {
        var more;
        front, more := TrimExact(line[..n]);
        back := more + [line[n]];
        TrimmedBack(line, TrimLine(line[..n]), front, more);
      } else {
        assert line == [] + line + [];
      }
    }
  }

  lemma TrimmedFront(line: Scalars, t: Scalars, front: Scalars, back: Scalars)
    requires line != [] && line[1..] == front + t + back && AllBlank(front) && IsBlank(line[0])
    ensures line == ([line[0]] + front) + t + back && AllBlank([line[0]] + front)
  {
    hide IsBlank;
    assert line == [line[0]] + line[1..];
  }

  lemma TrimmedBack(line: Scalars, t: Scalars, front: Scalars, back: Scalars)
    requires line != [] && line[..|line| - 1] == front + t + back && AllBlank(back) && IsBlank(line[|line| - 1])
    ensures line == front + t + (back + [line[|line| - 1]]) && AllBlank(back + [line[|line| - 1]])
  {
    hide IsBlank;
    assert line == line[..|line| - 1] + [line[|line| - 1]];
  }

  lemma KindsConcat(a: seq<Line>, b: seq<Line>, n: nat)
    ensures KindsOf(a + b, n) == KindsOf(a, n) + KindsOf(b, n)
  {
    hide KindOf;
    var all := a + b;
    assert forall i :: 0 <= i < |all| ==> KindsOf(all, n)[i] == (KindsOf(a, n) + KindsOf(b, n))[i];
  }

  lemma LineKindsExact(p: Progress, line: Scalars, o: Options)
    requires p.line == []
    ensures EndLine(Extend(p, line, o), o) == Progress(p.kinds + KindsOf(LineRead(line, o), o.maxFinalBytes), [])
  {
    TrimmedAway(line);
    assert [] + line == line && Size([]) == 0;
    var ls := LineRead(line, o);
    var ks := KindsOf(ls, o.maxFinalBytes);
    if Size(line) > o.maxFrameBytes {
      assert ks == [OverLimit];
      assert p.kinds + [OverLimit] + [] == p.kinds + [OverLimit];
    } else {
      assert ks == LineKinds(line, o);
      assert p.kinds + [] == p.kinds;
    }
  }

  lemma {:induction false} LinesFed(p: Progress, lines: seq<Scalars>, o: Options)
    requires p.line == [] && AreLines(lines, JoinLines(lines))
    ensures EndLine(FeedAll(p, JoinLines(lines), o), o).kinds == p.kinds + KindsOf(LinesRead(lines, o), o.maxFinalBytes)
    decreases |lines|
  {
    hide LineRead, LineKinds, KindOf;
    var first, rest := lines[0], lines[1..];
    var n := o.maxFinalBytes;
    FeedPart(p, first, o);
    LineKindsExact(p, first, o);
    KindsConcat(LineRead(first, o), LinesRead(rest, o), n);
    if |lines| == 1 {
      assert LinesRead(rest, o) == [];
      assert KindsOf([], n) == [];
      assert p.kinds + (KindsOf(LineRead(first, o), n) + []) == p.kinds + KindsOf(LineRead(first, o), n);
    } else {
      var q := Extend(p, first, o);
      var tail := [0x0A] + JoinLines(rest);
      assert first + [0x0A] + JoinLines(rest) == first + tail;
      FeedConcat(p, first, tail, o);
      assert tail[1..] == JoinLines(rest);
      LinesFed(EndLine(q, o), rest, o);
      assert p.kinds + (KindsOf(LineRead(first, o), n) + KindsOf(LinesRead(rest, o), n)) ==
        p.kinds + KindsOf(LineRead(first, o), n) + KindsOf(LinesRead(rest, o), n);
    }
  }

  lemma {:induction false} LinesExist(text: Scalars) returns (lines: seq<Scalars>)
    ensures AreLines(lines, text)
    decreases |text|
  {
    if text == [] {
      lines := [[]];
    } else {
      var c := text[0];
      var rest := LinesExist(text[1..]);
      assert text == [c] + text[1..];
      if c == 0x0A {
        lines := [[]] + rest;
        assert lines[1..] == rest;
        assert [] + [c] + text[1..] == text;
      } else {
        lines := [[c] + rest[0]] + rest[1..];
        assert lines[1..] == rest[1..];
        assert |rest| > 1 ==> [c] + (rest[0] + [0x0A] + JoinLines(rest[1..])) == ([c] + rest[0]) + [0x0A] + JoinLines(rest[1..]);
      }
    }
  }

  /** A fault anywhere is never answered. */
  lemma FaultRejected(ks: seq<Kind>, i: nat)
    requires i < |ks| && !IsEvent(ks[i])
    ensures Outcome(Run(ks)).Rejected?
  {
    hide Run;
    ResultIsLastTurn(ks);
    assert !Acceptable(ks[..i], ks[i]);
  }

  /**
   However the bytes of a run are cut, the run answers with a text and a usage exactly if the bytes
   are UTF-8 to the end and the lines between their line feeds do.
   */
  lemma StreamAnswers(chunks: seq<Bytes>, o: Options, text: Text, usage: Option<Usage>)
    ensures var d := Decode(Concat(chunks));
            Outcome(Run(End(WriteAll(INITIAL, chunks, o), o).progress.kinds)) == Answer(text, usage) <==>
              && d.wellFormed && d.rest == []
              && exists lines :: AreLines(lines, Visible(false, d.chars)) &&
                   Answers(LinesRead(lines, o), o.maxFinalBytes, text, usage)
  {
    hide Decode, FeedAll, Run, Answers, LineKinds, LinesRead, KindsOf, AreLines;
    var b := Concat(chunks);
    var d := Decode(b);
    if !d.wellFormed {
      MalformedRejected(chunks, o);
    } else {
      ChunkIndependence(chunks, o);
      var end := End(After(b, o), o).progress;
      if d.rest != [] {
        IncompleteRejected(After(b, o), o);
      } else {
        var body := Visible(false, d.chars);
        var some := LinesExist(body);
        forall lines | AreLines(lines, body)
          ensures end.kinds == KindsOf(LinesRead(lines, o), o.maxFinalBytes)
        {
          WholeLines(b, lines, o);
        }
        forall lines | AreLines(lines, body)
          ensures Outcome(Run(end.kinds)) == Answer(text, usage) <==> Answers(LinesRead(lines, o), o.maxFinalBytes, text, usage)
        {
          AnswerExact(LinesRead(lines, o), o.maxFinalBytes, text, usage);
        }
      }
    }
  }

  lemma WholeLines(b: Bytes, lines: seq<Scalars>, o: Options)
    requires Decode(b).rest == [] && AreLines(lines, Visible(false, Decode(b).chars))
    ensures End(After(b, o), o).progress.kinds == KindsOf(LinesRead(lines, o), o.maxFinalBytes)
  {
    hide Decode, FeedAll, KindsOf, LinesRead, LineKinds;
    LinesFed(Progress([], []), lines, o);
    assert [] + KindsOf(LinesRead(lines, o), o.maxFinalBytes) == KindsOf(LinesRead(lines, o), o.maxFinalBytes);
  }

  lemma MalformedRejected(chunks: seq<Bytes>, o: Options)
    requires !Decode(Concat(chunks)).wellFormed
    ensures Outcome(Run(End(WriteAll(INITIAL, chunks, o), o).progress.kinds)).Rejected?
  {
    hide Decode, FeedAll, Run, LineKinds;
    var n := CutIsBehind(Concat(chunks), chunks, o);
    var p := FeedAll(NONE, Before(Concat(chunks))[..n], o);
    var ks := Faulted(p, o);
    assert ks[|p.kinds|] == InvalidUtf8;
    FaultRejected(ks, |p.kinds|);
  }

  lemma IncompleteRejected(m: Machine, o: Options)
    requires m.carry != [] && !m.broken && !m.finished
    ensures Outcome(Run(End(m, o).progress.kinds)).Rejected?
  {
    hide Run, LineKinds;
    var ks := End(m, o).progress.kinds;
    assert ks[|m.progress.kinds|] == IncompleteUtf8;
    FaultRejected(ks, |m.progress.kinds|);
  }
}
