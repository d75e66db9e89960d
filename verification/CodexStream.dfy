/**
 Line framing of a Codex run under arbitrary chunking
 (packages/agent/src/codex-exec-stream.ts).

 `JSON.parse` of a line is a parameter; everything else, from bytes to turns, is modelled.
 */
module CodexStream {
  import opened Prelude
  import opened Utf16
  import opened Utf8
  import opened Json
  import opened CodexEvents

  /** Limits, and JSON.parse of a trimmed line. */
  datatype Options = Options(maxFrameBytes: nat, maxFinalBytes: nat, parse: Scalars -> Option<Value>)

  const BOM: Scalar := 0xFEFF

  predicate IsBlank(c: Scalar) {
    c < 0x1_0000 && IsSpace(c)
  }

  function TrimLine(line: Scalars): Scalars {
    if line == [] then []
    else if IsBlank(line[0]) then TrimLine(line[1..])
    else if IsBlank(line[|line| - 1]) then TrimLine(line[..|line| - 1])
    else line
  }

  // ---------------------------------------------------------------- one character at a time

  /** The frames seen so far, and the text since the last line feed. */
  datatype Progress = Progress(kinds: seq<Kind>, line: Scalars)

  /** What a complete line contributes, unless it was discarded or blank. */
  function LineKinds(line: Scalars, o: Options): seq<Kind> {
    if Size(line) > o.maxFrameBytes || TrimLine(line) == [] then []
    else [FrameKind(o.parse(TrimLine(line)), o.maxFinalBytes)]
  }

  function EndLine(p: Progress, o: Options): Progress {
    Progress(p.kinds + LineKinds(p.line, o), [])
  }

  /** More text of the current line; crossing the limit is a fault, once. */
  function Extend(p: Progress, part: Scalars, o: Options): Progress {
    var crossed := Size(p.line) <= o.maxFrameBytes < Size(p.line + part);
    Progress(p.kinds + if crossed then [OverLimit] else [], p.line + part)
  }

  function FeedOne(p: Progress, c: Scalar, o: Options): Progress {
    if c == 0x0A then EndLine(p, o) else Extend(p, [c], o)
  }

  /** The simple form of framing: fold over the characters. */
  function FeedAll(p: Progress, text: Scalars, o: Options): Progress
    decreases |text|
  {
    if text == [] then p else FeedAll(FeedOne(p, text[0], o), text[1..], o)
  }

  lemma {:induction false} FeedConcat(p: Progress, a: Scalars, b: Scalars, o: Options)
    ensures FeedAll(p, a + b, o) == FeedAll(FeedAll(p, a, o), b, o)
    decreases |a|
  {
    if a == [] {
      assert a + b == b;
    } else {
      assert (a + b)[1..] == a[1..] + b;
      FeedConcat(FeedOne(p, a[0], o), a[1..], b, o);
    }
  }

  lemma ExtendExtend(p: Progress, a: Scalars, b: Scalars, o: Options)
    ensures Extend(Extend(p, a, o), b, o) == Extend(p, a + b, o)
  {
    SizeConcat(p.line, a);
    SizeConcat(p.line + a, b);
    assert p.line + a + b == p.line + (a + b);
    assert p.kinds + [] == p.kinds;
  }

  /** Text without a line feed only extends the line. */
  lemma {:induction false} FeedPart(p: Progress, part: Scalars, o: Options)
    requires forall i :: 0 <= i < |part| ==> part[i] != 0x0A
    ensures FeedAll(p, part, o) == Extend(p, part, o)
    decreases |part|
  {
    if part == [] {
      assert p.line + [] == p.line && p.kinds + [] == p.kinds;
    } else {
      FeedPart(FeedOne(p, part[0], o), part[1..], o);
      ExtendExtend(p, [part[0]], part[1..], o);
      assert [part[0]] + part[1..] == part;
    }
  }

  // ---------------------------------------------------------------- the stream as a machine

  /**
   The state between calls: undecoded bytes, whether any character was decoded, progress, and
   whether decoding failed or the stream ended.
   */
  datatype Machine = Machine(carry: Bytes, begun: bool, progress: Progress, broken: bool, finished: bool)

  const INITIAL: Machine := Machine([], false, Progress([], []), false, false)

  /** The decoder swallows a byte order mark at the very beginning. */
  function Visible(begun: bool, chars: Scalars): Scalars {
    if !begun && chars != [] && chars[0] == BOM then chars[1..] else chars
  }

  function Fault(m: Machine, k: Kind): Machine {
    m.(progress := m.progress.(kinds := m.progress.kinds + [k]))
  }

  /** write(bytes): a malformed chunk contributes none of its text. */
  function Write(m: Machine, bytes: Bytes, o: Options): Machine {
    if m.broken || m.finished then m
    else
      var d := Decode(m.carry + bytes);
      if !d.wellFormed then Fault(m, InvalidUtf8).(broken := true)
      else
        m.(carry := d.rest, begun := m.begun || d.chars != [],
           progress := FeedAll(m.progress, Visible(m.begun, d.chars), o))
  }

  /** end(): an incomplete character is a fault, and the last line needs no line feed. */
  function End(m: Machine, o: Options): Machine {
    if m.finished then m
    else
      var flushed := if !m.broken && m.carry != [] then Fault(m, IncompleteUtf8) else m;
      flushed.(progress := EndLine(flushed.progress, o), finished := true)
  }

  function WriteAll(m: Machine, chunks: seq<Bytes>, o: Options): Machine
    decreases |chunks|
  {
    if chunks == [] then m else WriteAll(Write(m, chunks[0], o), chunks[1..], o)
  }

  function Concat(chunks: seq<Bytes>): Bytes {
    if chunks == [] then [] else chunks[0] + Concat(chunks[1..])
  }

  /** The machine after `bytes` arrived in any well-formed way. */
  function After(bytes: Bytes, o: Options): Machine {
    var d := Decode(bytes);
    Machine(d.rest, d.chars != [], FeedAll(Progress([], []), Visible(false, d.chars), o), false, false)
  }

  lemma VisibleConcat(a: Scalars, b: Scalars)
    ensures Visible(false, a) + Visible(a != [], b) == Visible(false, a + b)
  {
    if a == [] {
      assert a + b == b;
    } else {
      assert (a + b)[1..] == a[1..] + b;
    }
  }

  lemma {:induction false} WriteAfter(bytes: Bytes, more: Bytes, o: Options)
    requires Decode(bytes + more).wellFormed
    ensures Decode(bytes).wellFormed
    ensures Write(After(bytes, o), more, o) == After(bytes + more, o)
  {
    hide Decode, FeedAll;
    DecodeConcat(bytes, more);
    var d := Decode(bytes);
    var e := Decode(d.rest + more);
    VisibleConcat(d.chars, e.chars);
    FeedConcat(Progress([], []), Visible(false, d.chars), Visible(d.chars != [], e.chars), o);
  }

  lemma {:induction false} WriteAllAfter(bytes: Bytes, chunks: seq<Bytes>, o: Options)
    requires Decode(bytes + Concat(chunks)).wellFormed
    ensures WriteAll(After(bytes, o), chunks, o) == After(bytes + Concat(chunks), o)
    decreases |chunks|
  {
    if chunks == [] {
      assert bytes + [] == bytes;
    } else {
      assert bytes + Concat(chunks) == (bytes + chunks[0]) + Concat(chunks[1..]);
      DecodeConcat(bytes + chunks[0], Concat(chunks[1..]));
      WriteAfter(bytes, chunks[0], o);
      WriteAllAfter(bytes + chunks[0], chunks[1..], o);
    }
  }

  /**
   Chunk independence: however a stream without malformed UTF-8 is cut into writes, frames,
   faults, text and usage come out as from one write of all of it, even if it ends inside a
   character or a line exceeds the limit.
   */
  lemma ChunkIndependence(chunks: seq<Bytes>, o: Options)
    requires Decode(Concat(chunks)).wellFormed
    ensures End(WriteAll(INITIAL, chunks, o), o) == End(Write(INITIAL, Concat(chunks), o), o)
    ensures WriteAll(INITIAL, chunks, o) == After(Concat(chunks), o)
  {
    var all := Concat(chunks);
    assert INITIAL == After([], o);
    assert [] + all == all;
    WriteAllAfter([], chunks, o);
    WriteAfter([], all, o);
  }

  // ---------------------------------------------------------------- the class

  class CodexExecStream {
    const options: Options
    var carry: Bytes
    var begun: bool
    var pending: Scalars
    var pendingBytes: nat
    var discardedFrame: bool
    var decodeFailed: bool
    var finished: bool
    var failure: Option<Failure>
    var finalText: Text
    var completed: bool
    var terminalSignature: Option<Text>
    var usage: Option<Usage>
    /** The events handed to `onFrame`. */
    var delivered: seq<Value>
    /** The machine this object implements. */
    ghost var machine: Machine

    /** The fields of the turn machine. */
    function Judged(): Turn
      reads this
    {
      Turn(failure, finalText, completed, terminalSignature, usage, delivered)
    }

    /** The pending text is the current line, unless that is already too long. */
    ghost predicate Holds(p: Progress)
      reads this
    {
      && Judged() == Run(p.kinds)
      && (discardedFrame <==> Size(p.line) > options.maxFrameBytes)
      && (discardedFrame ==> pending == [])
      && (!discardedFrame ==> pending == p.line && pendingBytes == Size(p.line))
    }

    ghost predicate Valid()
      reads this
    {
      && carry == machine.carry && begun == machine.begun
      && decodeFailed == machine.broken && finished == machine.finished
      && Holds(machine.progress)
    }

    constructor (options: Options)
      ensures Valid() && machine == INITIAL && this.options == options
    {
      this.options := options;
      carry, begun, pending, pendingBytes, discardedFrame := [], false, [], 0, false;
      decodeFailed, finished := false, false;
      failure, finalText, completed, terminalSignature, usage, delivered := None, [], false, None, None, [];
      machine := INITIAL;
    }

    method SetFailure(reason: Failure)
      modifies this`failure
      ensures Judged() == Fail(old(Judged()), reason)
    {
      if failure.None? {
        failure := Some(reason);
      }
    }

    /** write: decode what is complete, and frame it. */
    method WriteBytes(bytes: Bytes) returns (text: Scalars)
      requires Valid()
      modifies this
      ensures Valid() && machine == Write(old(machine), bytes, options)
      ensures text == if old(finished) || machine.broken then [] else Visible(old(begun), Decode(old(carry) + bytes).chars)
    {
      hide Decode, FeedAll, Run;
      if decodeFailed || finished {
        return [];
      }
      var d := Decode(carry + bytes);
      if !d.wellFormed {
        decodeFailed := true;
        SetFailure(Because(InvalidUtf8));
        RunAppend(machine.progress.kinds, InvalidUtf8);
        machine := Write(machine, bytes, options);
        return [];
      }
      text := if !begun && d.chars != [] && d.chars[0] == BOM then d.chars[1..] else d.chars;
      ghost var p := machine.progress;
      machine := Write(machine, bytes, options);
      carry, begun := d.rest, begun || d.chars != [];
      Feed(text, p);
    }

    /** feed: cut the text at its line feeds. */
    method Feed(text: Scalars, ghost p: Progress)
      requires Holds(p)
      modifies this`pending, this`pendingBytes, this`discardedFrame, this`failure, this`finalText, this`completed,
               this`terminalSignature, this`usage, this`delivered
      ensures Holds(FeedAll(p, text, options))
    {
      hide FeedAll, Run;
      var offset := 0;
      ghost var q := p;
      assert text[0..] == text;
      while offset < |text|
        invariant 0 <= offset <= |text|
        invariant Holds(q)
        invariant FeedAll(q, text[offset..], options) == FeedAll(p, text, options)
      {
        var newline := offset;
        while newline < |text| && text[newline] != 0x0A
          invariant offset <= newline <= |text|
          invariant forall i :: offset <= i < newline ==> text[i] != 0x0A
        {
          newline := newline + 1;
        }
        var part := text[offset..newline];
        FeedSplit(q, text, offset, newline, options);
        Append(part, q);
        q := Extend(q, part, options);
        if newline == |text| {
          offset := newline;
          break;
        }
        Frame(q);
        q := EndLine(q, options);
        offset := newline + 1;
      }
      FeedEnd(q, text[offset..], options);
    }

    /** The body of the feed loop for the text up to a line feed. */
    method Append(part: Scalars, ghost p: Progress)
      requires Holds(p)
      modifies this`pending, this`pendingBytes, this`discardedFrame, this`failure
      ensures Holds(Extend(p, part, options))
    {
      hide Run;
      SizeConcat(p.line, part);
      assert p.kinds + [] == p.kinds;
      if !discardedFrame {
        pendingBytes := pendingBytes + Size(part);
        if pendingBytes > options.maxFrameBytes {
          SetFailure(Because(OverLimit));
          RunAppend(p.kinds, OverLimit);
          pending := [];
          discardedFrame := true;
        } else {
          pending := pending + part;
        }
      }
    }

    /** frame: judge the pending line. */
    method Frame(ghost p: Progress)
      requires Holds(p)
      modifies this`pending, this`pendingBytes, this`discardedFrame, this`failure, this`finalText, this`completed,
               this`terminalSignature, this`usage, this`delivered
      ensures Holds(EndLine(p, options))
    {
      hide Run, Step, FrameKind;
      var line := TrimLine(pending);
      var discarded := discardedFrame;
      pending, pendingBytes, discardedFrame := [], 0, false;
      assert p.kinds + [] == p.kinds;
      assert Size([]) == 0;
      if discarded || line == [] {
        assert TrimLine([]) == [];
        return;
      }
      var kind := FrameKind(options.parse(line), options.maxFinalBytes);
      RunAppend(p.kinds, kind);
      Judge(kind);
    }

    /** The part of `frame` after its line was parsed: one step of the turn machine. */
    method Judge(kind: Kind)
      modifies this`failure, this`finalText, this`completed, this`terminalSignature, this`usage, this`delivered
      ensures Judged() == Step(old(Judged()), kind)
    {
      hide Print;
      if !IsEvent(kind) {
        SetFailure(Because(kind));
        return;
      }
      delivered := delivered + [kind.event];
      match kind {
        case Failed(_) =>
          SetFailure(Because(kind));
        case Started(_) =>
          completed, finalText, terminalSignature := false, [], None;
        case Completed(event, total) =>
          var signature := Print(event);
          if completed {
            if terminalSignature != Some(signature) {
              SetFailure(ConflictingCompletion);
            }
            return;
          }
          completed, terminalSignature, usage := true, Some(signature), total;
        case Message(_, text) =>
          if completed {
            SetFailure(MessageAfterCompletion);
            return;
          }
          finalText := text;
        case LongMessage(_) =>
          if completed {
            SetFailure(MessageAfterCompletion);
            return;
          }
          SetFailure(Because(kind));
        case Other(_) =>
      }
    }

    /** end: flush the decoder and judge the last line. */
    method EndOfStream()
      requires Valid()
      modifies this
      ensures Valid() && machine == End(old(machine), options)
    {
      hide Run, LineKinds;
      if finished {
        return;
      }
      finished := true;
      ghost var p := machine.progress;
      machine := End(machine, options);
      if !decodeFailed && carry != [] {
        SetFailure(Because(IncompleteUtf8));
        RunAppend(p.kinds, IncompleteUtf8);
        p := p.(kinds := p.kinds + [IncompleteUtf8]);
      }
      Frame(p);
    }

    /** result: what the machine makes of the frames seen. */
    method TakeResult() returns (r: Answer)
      requires Valid() && finished
      ensures r == Outcome(Run(machine.progress.kinds))
    {
      if failure.Some? || !completed || Trim(finalText) == [] {
        return Rejected;
      }
      return Answer(finalText, usage);
    }

    /** tokenUsage: whatever the answer says, but never of an incomplete stream. */
    method TokenUsage() returns (r: Option<Usage>)
      requires Valid()
      ensures var t := Run(machine.progress.kinds);
              r == if finished && t.failure.None? && t.completed then t.usage else None
    {
      r := if finished && failure.None? && completed then usage else None;
    }
  }

  lemma FeedEnd(p: Progress, rest: Scalars, o: Options)
    requires rest == []
    ensures FeedAll(p, rest, o) == p
  {
  }

  /** Feeding up to the next line feed, and what remains after it. */
  lemma FeedSplit(p: Progress, text: Scalars, offset: nat, newline: nat, o: Options)
    requires offset <= newline <= |text|
    requires forall i :: offset <= i < newline ==> text[i] != 0x0A
    requires newline < |text| ==> text[newline] == 0x0A
    ensures var q := Extend(p, text[offset..newline], o);
            FeedAll(p, text[offset..], o) ==
            if newline == |text| then q else FeedAll(EndLine(q, o), text[newline + 1..], o)
  {
    var part, rest := text[offset..newline], text[newline..];
    assert text[offset..] == part + rest;
    FeedConcat(p, part, rest, o);
    FeedPart(p, part, o);
    if newline < |text| {
      assert rest[1..] == text[newline + 1..];
    }
  }
}
