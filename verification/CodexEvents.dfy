/**
 The events of a Codex run and the turn machine that judges them
 (packages/agent/src/codex-exec-stream.ts).
 */
module CodexEvents {
  import opened Prelude
  import opened Utf16
  import opened Json

  datatype Usage = Usage(input: int, output: int, cached: int, reasoning: int)

  predicate IsCount(v: Option<Value>) {
    v.Some? && v.value.Num? && v.value.n.value.Floor as real == v.value.n.value &&
    0 <= v.value.n.value.Floor <= MAX_SAFE_INTEGER
  }

  function CountOf(v: Option<Value>): (n: int)
    requires IsCount(v)
    ensures 0 <= n <= MAX_SAFE_INTEGER
  {
    v.value.n.value.Floor
  }

  /** `value.key ?? 0`; None when what is there is no count. */
  function CountOrZero(v: Option<Value>): Option<int> {
    if v.None? || v.value.Null? then Some(0)
    else if IsCount(v) then Some(CountOf(v))
    else None
  }

  /** parseCodexTokenUsage. */
  function ParseUsage(v: Option<Value>): (r: Option<Usage>)
    ensures r.Some? ==>
              var u := r.value;
              && 0 <= u.cached <= u.input && 0 <= u.reasoning <= u.output
              && u.input + u.output <= MAX_SAFE_INTEGER
  {
    if v.None? || !v.value.Obj? then None
    else
      var f := v.value.fields;
      var input, output := Lookup(f, Lit("input_tokens")), Lookup(f, Lit("output_tokens"));
      var cached, reasoning := CountOrZero(Lookup(f, Lit("cached_input_tokens"))), CountOrZero(Lookup(f, Lit("reasoning_output_tokens")));
      if !IsCount(input) || !IsCount(output) || cached.None? || reasoning.None? then None
      else if cached.value > CountOf(input) || reasoning.value > CountOf(output) ||
              CountOf(input) + CountOf(output) > MAX_SAFE_INTEGER then None
      else Some(Usage(CountOf(input), CountOf(output), cached.value, reasoning.value))
  }

  /** The number n, however it is written. */
  predicate Counts(v: Option<Value>, n: int) {
    v.Some? && v.value.Num? && v.value.n.value == n as real
  }

  predicate CountsOrAbsent(v: Option<Value>, n: int) {
    Counts(v, n) || (n == 0 && (v.None? || v.value.Null?))
  }

  /** Usage is accepted exactly as the object states it, if its parts fit their wholes and the sum is a safe integer. */
  lemma UsageExact(v: Option<Value>, u: Usage)
    ensures ParseUsage(v) == Some(u) <==>
              && v.Some? && v.value.Obj?
              && Counts(Lookup(v.value.fields, Lit("input_tokens")), u.input)
              && Counts(Lookup(v.value.fields, Lit("output_tokens")), u.output)
              && CountsOrAbsent(Lookup(v.value.fields, Lit("cached_input_tokens")), u.cached)
              && CountsOrAbsent(Lookup(v.value.fields, Lit("reasoning_output_tokens")), u.reasoning)
              && 0 <= u.cached <= u.input && 0 <= u.reasoning <= u.output && u.input + u.output <= MAX_SAFE_INTEGER
  {
    hide Lookup, Lit;
    if v.Some? && v.value.Obj? {
      var f := v.value.fields;
      CountExact(Lookup(f, Lit("input_tokens")), u.input);
      CountExact(Lookup(f, Lit("output_tokens")), u.output);
      CountExact(Lookup(f, Lit("cached_input_tokens")), u.cached);
      CountExact(Lookup(f, Lit("reasoning_output_tokens")), u.reasoning);
    }
  }

  lemma CountExact(v: Option<Value>, n: int)
    ensures Counts(v, n) && 0 <= n <= MAX_SAFE_INTEGER <==> IsCount(v) && CountOf(v) == n
  {
    if Counts(v, n) {
      assert (n as real).Floor == n;
    }
  }

  // ---------------------------------------------------------------- frames

  /** What one frame, or a fault of the stream, is to the turn machine. */
  datatype Kind =
    | InvalidUtf8
    | IncompleteUtf8
    | OverLimit
    | NotJson
    | NotEnvelope
    | Failed(event: Value)
    | Started(event: Value)
    | Completed(event: Value, usage: Option<Usage>)
    | Message(event: Value, text: Text)
    | LongMessage(event: Value)
    | Other(event: Value)

  predicate IsEvent(k: Kind) {
    k.Failed? || k.Started? || k.Completed? || k.Message? || k.LongMessage? || k.Other?
  }

  /** String(v). */
  function ToText(v: Value): Text {
    match v
    case Null => Lit("null")
    case Bool(b) => if b then Lit("true") else Lit("false")
    case Num(n) => n.text
    case Str(s) => s
    case Arr(items) => JoinTexts(items)
    case Obj(_) => Lit("[object Object]")
  }

  function JoinTexts(items: seq<Value>): Text {
    if items == [] then []
    else
      (if items[0].Null? then [] else ToText(items[0])) +
      (if |items| == 1 then [] else [0x2C] + JoinTexts(items[1..]))
  }

  /** The concatenated `text` members of the content parts. */
  function PartTexts(parts: seq<Value>): Text {
    if parts == [] then []
    else
      (if parts[0].Obj? && IsStr(Lookup(parts[0].fields, Lit("text"))) then Lookup(parts[0].fields, Lit("text")).value.s else []) +
      PartTexts(parts[1..])
  }

  predicate IsStr(v: Option<Value>) {
    v.Some? && v.value.Str?
  }

  function ItemText(item: seq<Field>): Text {
    var text, content := Lookup(item, Lit("text")), Lookup(item, Lit("content"));
    if IsStr(text) then text.value.s
    else if IsStr(content) then content.value.s
    else if content.Some? && content.value.Arr? then PartTexts(content.value.items)
    else []
  }

  /** A completed item that carries final assistant text. */
  predicate IsFinalMessage(item: Option<Value>) {
    item.Some? && item.value.Obj? &&
    var f := item.value.fields;
    var tag := Lookup(f, Lit("type"));
    var phase := Lookup(f, Lit("phase"));
    && tag.Some? && ToText(tag.value) in {Lit("agent_message"), Lit("assistant_message")}
    && (phase.None? || phase.value == Str(Lit("final_answer")))
  }

  function EventKind(event: Value, maxFinalBytes: nat): Kind
    requires event.Obj?
  {
    var tag := Lookup(event.fields, Lit("type"));
    if !IsStr(tag) then NotEnvelope
    else if tag.value.s == Lit("error") || tag.value.s == Lit("turn.failed") then Failed(event)
    else if tag.value.s == Lit("turn.started") then Started(event)
    else if tag.value.s == Lit("turn.completed") then Completed(event, ParseUsage(Lookup(event.fields, Lit("usage"))))
    else if tag.value.s == Lit("item.completed") && IsFinalMessage(Lookup(event.fields, Lit("item"))) then
      var text := ItemText(Lookup(event.fields, Lit("item")).value.fields);
      if Utf8Length(text) > maxFinalBytes then LongMessage(event) else Message(event, text)
    else Other(event)
  }

  /** The kind of a parsed line; None stands for text that is no JSON. */
  function FrameKind(parsed: Option<Value>, maxFinalBytes: nat): Kind {
    if parsed.None? then NotJson
    else if !parsed.value.Obj? then NotEnvelope
    else EventKind(parsed.value, maxFinalBytes)
  }

  // ---------------------------------------------------------------- the turn machine

  /** Failures keep their first reason; the last two arise only inside the machine. */
  datatype Failure = Because(kind: Kind) | ConflictingCompletion | MessageAfterCompletion

  datatype Turn = Turn(
    failure: Option<Failure>, finalText: Text, completed: bool, signature: Option<Text>,
    usage: Option<Usage>, delivered: seq<Value>)

  const START: Turn := Turn(None, [], false, None, None, [])

  function Fail(t: Turn, f: Failure): Turn {
    if t.failure.None? then t.(failure := Some(f)) else t
  }

  /** One frame: `frame()` after its line was parsed. */
  function Step(t0: Turn, k: Kind): Turn {
    if !IsEvent(k) then Fail(t0, Because(k))
    else
      var t := t0.(delivered := t0.delivered + [k.event]);
      match k
      case Failed(_) => Fail(t, Because(k))
      case Started(_) => t.(completed := false, finalText := [], signature := None)
      case Completed(event, usage) =>
        var signature := Print(event);
        if t.completed then
          if t.signature != Some(signature) then Fail(t, ConflictingCompletion) else t
        else t.(completed := true, signature := Some(signature), usage := usage)
      case Message(_, text) =>
        if t.completed then Fail(t, MessageAfterCompletion) else t.(finalText := text)
      case LongMessage(_) =>
        if t.completed then Fail(t, MessageAfterCompletion) else Fail(t, Because(k))
      case Other(_) => t
  }

  /** The machine after all frames of a stream. */
  function Run(ks: seq<Kind>): Turn {
    if ks == [] then START else Step(Run(ks[..|ks| - 1]), ks[|ks| - 1])
  }

  lemma RunAppend(ks: seq<Kind>, k: Kind)
    ensures Run(ks + [k]) == Step(Run(ks), k)
  {
    assert (ks + [k])[..|ks|] == ks;
  }

  datatype Answer = Rejected | Answer(text: Text, usage: Option<Usage>)

  /** result() once the stream has ended. */
  function Outcome(t: Turn): Answer {
    if t.failure.Some? || !t.completed || Trim(t.finalText) == [] then Rejected
    else Answer(t.finalText, t.usage)
  }

  // ---------------------------------------------------------------- what an accepted stream looks like

  /** Where the last turn begins: after the last start, or at the beginning. */
  function TurnStart(ks: seq<Kind>): (i: nat)
    ensures i <= |ks|
  {
    if ks == [] then 0
    else if ks[|ks| - 1].Started? then |ks|
    else TurnStart(ks[..|ks| - 1])
  }

  /** The completion that ends the last turn. */
  predicate EndsTurn(ks: seq<Kind>, i: int) {
    && TurnStart(ks) <= i < |ks| && ks[i].Completed?
    && forall j :: TurnStart(ks) <= j < i ==> !ks[j].Completed?
  }

  /** The final message of the last turn. */
  predicate IsAnswer(ks: seq<Kind>, i: int) {
    && TurnStart(ks) <= i < |ks| && ks[i].Message?
    && forall j :: i < j < |ks| ==> !ks[j].Message?
  }

  /** A frame that may follow the frames `before`. */
  ghost predicate Acceptable(before: seq<Kind>, k: Kind) {
    && (k.Started? || k.Completed? || k.Message? || k.Other?)
    && (k.Message? ==> forall i :: !EndsTurn(before, i))
    && (k.Completed? ==> forall i :: EndsTurn(before, i) ==> Print(before[i].event) == Print(k.event))
  }

  ghost predicate AllAcceptable(ks: seq<Kind>) {
    forall j :: 0 <= j < |ks| ==> Acceptable(ks[..j], ks[j])
  }

  lemma AllAcceptableFront(ks: seq<Kind>)
    requires ks != []
    ensures var n := |ks| - 1; AllAcceptable(ks) <==> AllAcceptable(ks[..n]) && Acceptable(ks[..n], ks[n])
  {
    var front := ks[..|ks| - 1];
    assert forall j :: 0 <= j < |front| ==> front[..j] == ks[..j];
  }

  /** What the machine remembers of the last turn of acceptable frames. */
  ghost predicate Remembers(t: Turn, ks: seq<Kind>) {
    && (t.completed <==> exists i :: EndsTurn(ks, i))
    && (forall i :: EndsTurn(ks, i) ==> t.signature == Some(Print(ks[i].event)) && t.usage == ks[i].usage)
    && (forall i :: IsAnswer(ks, i) ==> t.finalText == ks[i].text)
    && ((forall i :: !IsAnswer(ks, i)) ==> t.finalText == [])
  }

  lemma EndsTurnUnique(ks: seq<Kind>, i: int, j: int)
    requires EndsTurn(ks, i) && EndsTurn(ks, j)
    ensures i == j
  {
  }

  /** How the marks of the last turn move when a frame is added. */
  lemma MarksAppend(front: seq<Kind>, k: Kind)
    ensures var ks := front + [k];
            && TurnStart(ks) == (if k.Started? then |ks| else TurnStart(front))
            && (k.Started? ==> (forall i :: !EndsTurn(ks, i)) && (forall i :: !IsAnswer(ks, i)))
            && (!k.Started? ==> forall i :: i < |front| ==> (EndsTurn(ks, i) <==> EndsTurn(front, i)))
            && (!k.Started? && !k.Message? ==> forall i :: IsAnswer(ks, i) <==> IsAnswer(front, i))
            && (k.Message? ==> forall i :: IsAnswer(ks, i) <==> i == |front|)
            && (!k.Completed? ==> !EndsTurn(ks, |front|))
            && (k.Completed? ==> (EndsTurn(ks, |front|) <==> forall i :: !EndsTurn(front, i)))
  {
    var ks := front + [k];
    assert ks[..|front|] == front;
    assert forall i :: 0 <= i < |front| ==> ks[i] == front[i];
    if k.Completed? && !EndsTurn(ks, |front|) {
      var first := FirstCompletion(front, TurnStart(front));
      assert EndsTurn(front, first);
    }
  }

  /** The first completion at or after `from`. */
  lemma {:induction false} FirstCompletion(ks: seq<Kind>, from: nat) returns (first: nat)
    requires exists j :: from <= j < |ks| && ks[j].Completed?
    ensures from <= first < |ks| && ks[first].Completed?
    ensures forall j :: from <= j < first ==> !ks[j].Completed?
    decreases |ks| - from
  {
    if ks[from].Completed? {
      first := from;
    } else {
      first := FirstCompletion(ks, from + 1);
    }
  }

  /** The machine fails exactly when some frame is unacceptable where it stands. */
  lemma {:induction false} RunRemembers(ks: seq<Kind>)
    ensures Run(ks).failure.None? <==> AllAcceptable(ks)
    ensures AllAcceptable(ks) ==> Remembers(Run(ks), ks)
    decreases |ks|
  {
    if ks == [] {
      assert forall i :: !EndsTurn(ks, i) && !IsAnswer(ks, i);
    } else {
      var front, k := ks[..|ks| - 1], ks[|ks| - 1];
      assert ks == front + [k];
      RunRemembers(front);
      AllAcceptableFront(ks);
      StepRemembers(front, k);
    }
  }

  lemma {:induction false} StepRemembers(front: seq<Kind>, k: Kind)
    requires Run(front).failure.None? <==> AllAcceptable(front)
    requires AllAcceptable(front) ==> Remembers(Run(front), front)
    ensures var t := Step(Run(front), k);
            && (t.failure.None? <==> AllAcceptable(front) && Acceptable(front, k))
            && (t.failure.None? ==> Remembers(t, front + [k]))
  {
    hide Print;
    MarksAppend(front, k);
    assert forall i :: 0 <= i < |front| ==> (front + [k])[i] == front[i];
    if AllAcceptable(front) {
      if k.Completed? {
        StepCompleted(front, k);
      } else if k.Message? {
        StepMessage(front, k);
      }
    }
  }

  lemma StepMessage(front: seq<Kind>, k: Kind)
    requires k.Message? && Run(front).failure.None? && Remembers(Run(front), front)
    ensures var t := Step(Run(front), k);
            && (t.failure.None? <==> Acceptable(front, k))
            && (t.failure.None? ==> Remembers(t, front + [k]))
  {
    hide Print, Run;
    MarksAppend(front, k);
    var t, ks := Step(Run(front), k), front + [k];
    assert forall i :: 0 <= i < |front| ==> ks[i] == front[i];
    assert IsAnswer(ks, |front|);
  }

  lemma StepCompleted(front: seq<Kind>, k: Kind)
    requires k.Completed? && Run(front).failure.None? && Remembers(Run(front), front)
    ensures var t := Step(Run(front), k);
            && (t.failure.None? <==> Acceptable(front, k))
            && (t.failure.None? ==> Remembers(t, front + [k]))
  {
    hide Print, Run;
    MarksAppend(front, k);
    var t0, ks := Run(front), front + [k];
    assert forall i :: 0 <= i < |front| ==> ks[i] == front[i];
    if t0.completed {
      var i :| EndsTurn(front, i);
      forall j | EndsTurn(front, j) ensures j == i {
        EndsTurnUnique(front, i, j);
      }
      assert EndsTurn(ks, i);
    } else {
      assert EndsTurn(ks, |front|);
      forall j | EndsTurn(ks, j) ensures j == |front| {
        EndsTurnUnique(ks, j, |front|);
      }
    }
  }

  /**
   A stream is answered exactly when every frame is acceptable, its last turn was completed and
   the last message of that turn says something; the answer is that message with the usage of
   the completion that ended the turn.
   */
  lemma ResultIsLastTurn(ks: seq<Kind>)
    ensures Outcome(Run(ks)).Answer? <==>
              && AllAcceptable(ks)
              && (exists i :: EndsTurn(ks, i))
              && exists i :: IsAnswer(ks, i) && Trim(ks[i].text) != []
    ensures Outcome(Run(ks)).Answer? ==>
              && (forall i :: IsAnswer(ks, i) ==> Outcome(Run(ks)).text == ks[i].text)
              && (forall i :: EndsTurn(ks, i) ==> Outcome(Run(ks)).usage == ks[i].usage)
  {
    hide Run, Acceptable;
    RunRemembers(ks);
    assert Trim([]) == [];
  }
}
