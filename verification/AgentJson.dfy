/**
 Finding the fenced plan in agent output, and parsing it although its strings may span
 lines (packages/core/src/json.ts).
 */
module AgentJson {
  import opened Prelude
  import opened Utf16
  import opened Json

  // ---------------------------------------------------------------- quoting state

  datatype Mode = Outside | Inside | Escaped

  /** How one unit changes the position relative to string literals. */
  function Next(m: Mode, u: Unit): Mode {
    match m
    case Outside => if u == QUOTE then Inside else Outside
    case Inside => if u == BACKSLASH then Escaped else if u == QUOTE then Outside else Inside
    case Escaped => Inside
  }

  function Scan(m: Mode, t: Text): Mode
    decreases |t|
  {
    if t == [] then m else Scan(Next(m, t[0]), t[1..])
  }

  lemma {:induction false} ScanConcat(m: Mode, a: Text, b: Text)
    ensures Scan(m, a + b) == Scan(Scan(m, a), b)
    decreases |a|
  {
    if a == [] {
      assert a + b == b;
    } else {
      assert (a + b)[1..] == a[1..] + b;
      ScanConcat(Next(m, a[0]), a[1..], b);
    }
  }

  lemma ScanStep(m: Mode, t: Text, from: nat, i: nat)
    requires from <= i < |t|
    ensures Scan(m, t[from..i + 1]) == Next(Scan(m, t[from..i]), t[i])
  {
    assert t[from..i + 1] == t[from..i] + [t[i]];
    ScanConcat(m, t[from..i], [t[i]]);
  }

  // ---------------------------------------------------------------- the envelope

  /** `json` is the trimmed content; [start, end) is the whole envelope with its fences. */
  datatype Envelope = Envelope(json: Text, start: nat, end: nat)

  const OPENING: Text := Lit("```harness_agent_plan")

  predicate IsFence(t: Text, i: nat) {
    i + 3 <= |t| && t[i] == TICK && t[i + 1] == TICK && t[i + 2] == TICK
  }

  /** The tag stands at `i` and white space follows it. */
  predicate IsOpening(t: Text, i: nat) {
    i + |OPENING| < |t| && t[i..i + |OPENING|] == OPENING && IsSpace(t[i + |OPENING|])
  }

  predicate IsFirstOpening(t: Text, i: nat) {
    IsOpening(t, i) && forall j: nat :: j < i ==> !IsOpening(t, j)
  }

  predicate IsContentStart(t: Text, i: nat, from: nat) {
    && i + |OPENING| <= from <= |t|
    && (forall k :: i + |OPENING| <= k < from ==> IsSpace(t[k]))
    && (from < |t| ==> !IsSpace(t[from]))
  }

  /** A fence at `i` that is not inside a string literal of the content starting at `from`. */
  predicate IsClosing(t: Text, from: nat, i: nat) {
    from <= i && IsFence(t, i) && Scan(Outside, t[from..i]) == Outside
  }

  /** The first tag, the end of the white space after it, and the first closing fence. */
  ghost predicate Encloses(t: Text, open: nat, from: nat, close: nat) {
    && IsFirstOpening(t, open)
    && IsContentStart(t, open, from)
    && IsClosing(t, from, close)
    && forall k: nat :: k < close ==> !IsClosing(t, from, k)
  }

  ghost predicate HasEnvelope(t: Text, e: Envelope) {
    exists open: nat, from: nat, close: nat ::
      Encloses(t, open, from, close) && e == Envelope(Trim(t[from..close]), open, close + 3)
  }

  /** A text has at most one envelope. */
  lemma EnvelopeUnique(t: Text, e1: Envelope, e2: Envelope)
    requires HasEnvelope(t, e1) && HasEnvelope(t, e2)
    ensures e1 == e2
  {
    var o1: nat, f1: nat, c1: nat :| Encloses(t, o1, f1, c1) && e1 == Envelope(Trim(t[f1..c1]), o1, c1 + 3);
    var o2: nat, f2: nat, c2: nat :| Encloses(t, o2, f2, c2) && e2 == Envelope(Trim(t[f2..c2]), o2, c2 + 3);
    assert o1 == o2;
    assert f1 == f2;
    assert c1 == c2;
  }

  /** The envelope of a text, if it has one. */
  ghost function EnvelopeOf(t: Text): (r: Option<Envelope>)
    ensures r.Some? ==> HasEnvelope(t, r.value)
    ensures r.None? ==> forall e :: !HasEnvelope(t, e)
  {
    if e :| HasEnvelope(t, e) then Some(e) else None
  }

  method FindOpening(t: Text) returns (r: Option<nat>)
    ensures r.Some? ==> IsFirstOpening(t, r.value)
    ensures r.None? ==> forall i: nat :: !IsOpening(t, i)
  {
    var i := 0;
    while i < |t|
      invariant 0 <= i <= |t|
      invariant forall j: nat :: j < i ==> !IsOpening(t, j)
    {
      if IsOpening(t, i) {
        return Some(i);
      }
      i := i + 1;
    }
    return None;
  }

  /** extractAgentPlanEnvelope: one pass that tracks string literals. */
  method ExtractAgentPlanEnvelope(t: Text) returns (r: Option<Envelope>)
    ensures r == EnvelopeOf(t)
    ensures r.Some? ==> HasEnvelope(t, r.value)
  {
    var opening := FindOpening(t);
    if opening.None? {
      assert forall e :: !HasEnvelope(t, e);
      return None;
    }
    var open := opening.value;
    var from := open + |OPENING|;
    while from < |t| && IsSpace(t[from])
      invariant open + |OPENING| <= from <= |t|
      invariant forall k :: open + |OPENING| <= k < from ==> IsSpace(t[k])
    {
      from := from + 1;
    }
    var inString, escaped := false, false;
    var i := from;
    while i < |t|
      invariant from <= i <= |t|
      invariant escaped ==> inString
      invariant Scan(Outside, t[from..i]) == if escaped then Escaped else if inString then Inside else Outside
      invariant forall k: nat :: k < i ==> !IsClosing(t, from, k)
    {
      var ch := t[i];
      ScanStep(Outside, t, from, i);
      if inString {
        if escaped { escaped := false; }
        else if ch == BACKSLASH { escaped := true; }
        else if ch == QUOTE { inString := false; }
      } else if ch == QUOTE {
        inString := true;
      } else if IsFence(t, i) {
        r := Some(Envelope(Trim(t[from..i]), open, i + 3));
        assert Encloses(t, open, from, i);
        assert HasEnvelope(t, r.value);
        EnvelopeUnique(t, r.value, EnvelopeOf(t).value);
        return;
      }
      i := i + 1;
    }
    assert forall k: nat :: !IsClosing(t, from, k);
    NoEnvelope(t, open, from);
    return None;
  }

  lemma EnclosesFrom(t: Text, o: nat, f: nat, c: nat, open: nat, from: nat)
    requires IsFirstOpening(t, open) && IsContentStart(t, open, from)
    requires Encloses(t, o, f, c)
    ensures IsClosing(t, from, c)
  {
    assert o == open;
    assert f == from;
  }

  lemma NoEnvelope(t: Text, open: nat, from: nat)
    requires IsFirstOpening(t, open) && IsContentStart(t, open, from)
    requires forall k: nat :: !IsClosing(t, from, k)
    ensures EnvelopeOf(t) == None
  {
    if EnvelopeOf(t).Some? {
      var o: nat, f: nat, c: nat :| Encloses(t, o, f, c);
      EnclosesFrom(t, o, f, c, open, from);
    }
  }

  // ---------------------------------------------------------------- multi-line strings

  /** What is written for a control character inside a literal. */
  function ControlEscape(u: Unit): Text
    requires u < 0x20
  {
    if u == RETURN || u == NEWLINE then [BACKSLASH, 0x6E]
    else if u == TAB then [BACKSLASH, 0x74]
    else UnicodeEscape(u)
  }

  /** A control character inside a literal that no backslash precedes. */
  predicate IsBare(m: Mode, u: Unit) {
    m == Inside && u < 0x20
  }

  /** The repaired text, read in mode `m`. */
  function Repair(m: Mode, t: Text): Text
    decreases |t|
  {
    if t == [] then []
    else if !IsBare(m, t[0]) then [t[0]] + Repair(Next(m, t[0]), t[1..])
    else ControlEscape(t[0]) + Repair(Inside, t[if t[0] == RETURN then LineEnd(t) else 1..])
  }

  predicate Clean(m: Mode, t: Text)
    decreases |t|
  {
    t == [] || (!IsBare(m, t[0]) && Clean(Next(m, t[0]), t[1..]))
  }

  /** The units read outside string literals, including the opening quotes. */
  function OutsideText(m: Mode, t: Text): Text
    decreases |t|
  {
    if t == [] then []
    else (if m == Outside then [t[0]] else []) + OutsideText(Next(m, t[0]), t[1..])
  }

  /** escapeControlCharsInsideJsonStrings: one pass over the text. */
  method EscapeControlCharsInsideJsonStrings(input: Text) returns (r: Text)
    ensures r == Repair(Outside, input)
  {
    hide Repair;
    var out: Text := [];
    var inString, escaped, changed := false, false, false;
    var i := 0;
    assert input[0..] == input;
    while i < |input|
      invariant 0 <= i <= |input|
      invariant escaped ==> inString
      invariant out + Repair(ModeOf(inString, escaped), input[i..]) == Repair(Outside, input)
      invariant !changed ==> out == input[..i]
    {
      var ch := input[i];
      RepairStep(out, ModeOf(inString, escaped), input, i);
      if !inString {
        out := out + [ch];
        if ch == QUOTE { inString := true; }
      } else if escaped {
        out := out + [ch];
        escaped := false;
      } else if ch == BACKSLASH {
        out := out + [ch];
        escaped := true;
      } else if ch == QUOTE {
        out := out + [ch];
        inString := false;
      } else if ch == RETURN {
        changed := true;
        out := out + [BACKSLASH, 0x6E];
        if i + 1 < |input| && input[i + 1] == NEWLINE { i := i + 1; }
      } else if ch == NEWLINE {
        changed := true;
        out := out + [BACKSLASH, 0x6E];
      } else if ch == TAB {
        changed := true;
        out := out + [BACKSLASH, 0x74];
      } else if ch < 0x20 {
        changed := true;
        out := out + UnicodeEscape(ch);
      } else {
        out := out + [ch];
      }
      i := i + 1;
    }
    assert changed || out == input;
    RepairNothing(ModeOf(inString, escaped));
    assert input[i..] == [] && out + [] == out && input[..i] == input;
    return if changed then out else input;
  }

  lemma RepairNothing(m: Mode)
    ensures Repair(m, []) == []
  {
  }

  function ModeOf(inString: bool, escaped: bool): Mode {
    if escaped then Escaped else if inString then Inside else Outside
  }

  /** How far one step of the repair reads, and what it writes. */
  function StepLength(m: Mode, t: Text, i: nat): (n: nat)
    requires i < |t|
    ensures 1 <= n <= |t| - i
  {
    if m == Inside && t[i] == RETURN && i + 1 < |t| && t[i + 1] == NEWLINE then 2 else 1
  }

  lemma RepairStep(out: Text, m: Mode, t: Text, i: nat)
    requires i < |t|
    ensures out + Repair(m, t[i..]) ==
            if IsBare(m, t[i]) then (out + ControlEscape(t[i])) + Repair(Inside, t[i + StepLength(m, t, i)..])
            else (out + [t[i]]) + Repair(Next(m, t[i]), t[i + 1..])
  {
    var rest := t[i..];
    assert rest[1..] == t[i + 1..];
    if IsBare(m, t[i]) {
      var n := StepLength(m, t, i);
      assert rest[n..] == t[i + n..];
      assert Repair(m, rest) == ControlEscape(t[i]) + Repair(Inside, rest[n..]);
    }
  }
}
