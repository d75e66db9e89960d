/**
 Bounded buffers that keep the end of a stream (packages/agent/src/agent-stream-limits.ts).

 Texts are well-formed Unicode, as sequences of scalar values. One buffer keeps text, the other
 one events; each is proved to hold the longest suffix that fits of everything it was given.
 */
module StreamLimits {
  import opened Prelude
  import opened Utf8

  // ---------------------------------------------------------------- the tail of a text

  /** The longest suffix whose encoding has at most `limit` bytes. */
  function Tail(text: Scalars, limit: int): Scalars {
    if text == [] || Size(text) <= limit then text else Tail(text[1..], limit)
  }

  lemma {:induction false} TailIsSuffix(text: Scalars, limit: nat)
    ensures var r := Tail(text, limit);
            |r| <= |text| && r == text[|text| - |r|..] && Size(r) <= limit
  {
    if text == [] || Size(text) <= limit {
      assert text[0..] == text;
    } else {
      TailIsSuffix(text[1..], limit);
      var r := Tail(text[1..], limit);
      assert text[|text| - |r|..] == text[1..][|text[1..]| - |r|..];
    }
  }

  /** No longer suffix fits, so at most three bytes of room are left unused. */
  lemma {:induction false} TailLongest(text: Scalars, limit: nat, k: nat)
    requires k < |text| - |Tail(text, limit)|
    ensures Size(text[k..]) > limit
    ensures Size(Tail(text, limit)) >= limit - 3
  {
    TailIsSuffix(text[1..], limit);
    if k > 0 {
      assert text[k..] == text[1..][k - 1..];
      TailLongest(text[1..], limit, k - 1);
    } else {
      assert text[0..] == text;
      if |text[1..]| > |Tail(text[1..], limit)| {
        TailLongest(text[1..], limit, 0);
      }
    }
  }

  /** A front is irrelevant once what follows it fills the limit. */
  lemma {:induction false} TailDropsFront(a: Scalars, b: Scalars, limit: nat)
    requires Size(b) >= limit
    ensures Tail(a + b, limit) == Tail(b, limit)
  {
    if a == [] {
      assert a + b == b;
    } else {
      assert (a + b)[1..] == a[1..] + b;
      SizeConcat(a, b);
      TailDropsFront(a[1..], b, limit);
    }
  }

  /** While what follows fits, only the front is cut. */
  lemma {:induction false} TailCutsFront(a: Scalars, b: Scalars, limit: nat)
    requires Size(b) <= limit
    ensures Tail(a + b, limit) == Tail(a, limit - Size(b)) + b
  {
    SizeConcat(a, b);
    if a == [] {
      assert a + b == b;
      assert Tail(a, limit - Size(b)) + b == b;
    } else if Size(a) + Size(b) > limit {
      assert (a + b)[1..] == a[1..] + b;
      TailCutsFront(a[1..], b, limit);
    }
  }

  lemma TailWhole(text: Scalars, limit: nat)
    ensures Size(text) <= limit ==> Tail(text, limit) == text
  {
  }

  /** Cutting before appending loses nothing. */
  lemma TailAppend(a: Scalars, b: Scalars, limit: nat)
    ensures Tail(Tail(a, limit) + b, limit) == Tail(a + b, limit)
  {
    if Size(b) >= limit {
      TailDropsFront(a, b, limit);
      TailDropsFront(Tail(a, limit), b, limit);
    } else {
      TailCutsFront(a, b, limit);
      TailCutsFront(Tail(a, limit), b, limit);
      TailTail(a, limit, limit - Size(b));
    }
  }

  lemma {:induction false} TailTail(a: Scalars, big: nat, small: nat)
    requires small <= big
    ensures Tail(Tail(a, big), small) == Tail(a, small)
  {
    if a != [] && Size(a) > big {
      TailTail(a[1..], big, small);
    }
  }

  // ---------------------------------------------------------------- utf8Tail

  /** How many characters go when the encoding is cut at byte `start` or just after it. */
  function CutAt(text: Scalars, start: int): (k: nat)
    ensures k <= |text|
  {
    if start <= 0 || text == [] then 0 else 1 + CutAt(text[1..], start - Width(text[0]))
  }

  lemma {:induction false} CutIsTail(text: Scalars, limit: nat)
    ensures text[CutAt(text, Size(text) - limit)..] == Tail(text, limit)
  {
    hide Width;
    if text == [] || Size(text) <= limit {
      assert text[0..] == text;
    } else {
      CutIsTail(text[1..], limit);
      var k := CutAt(text[1..], Size(text[1..]) - limit);
      assert text[1 + k..] == text[1..][k..];
    }
  }

  /** The bytes from the first one that starts a character. */
  function DropContinuation(b: Bytes): Bytes {
    if b != [] && IsContinuation(b[0]) then DropContinuation(b[1..]) else b
  }

  lemma {:induction false} DropContinuationPast(a: Bytes, b: Bytes)
    requires forall i :: 0 <= i < |a| ==> IsContinuation(a[i])
    ensures DropContinuation(a + b) == DropContinuation(b)
  {
    if a == [] {
      assert a + b == b;
    } else {
      assert (a + b)[1..] == a[1..] + b;
      DropContinuationPast(a[1..], b);
    }
  }

  lemma EncodedStart(text: Scalars)
    ensures DropContinuation(Encode(text)) == Encode(text)
  {
    if text != [] {
      EncodedShape(text[0]);
      assert Encode(text)[0] == EncodeOne(text[0])[0];
    }
  }

  lemma SliceConcat(a: Bytes, b: Bytes, i: nat)
    requires i <= |a| + |b|
    ensures (a + b)[i..] == if i <= |a| then a[i..] + b else b[i - |a|..]
  {
  }

  /** From any byte of an encoding, the next character start is where `CutAt` cuts. */
  lemma {:induction false} CutByte(text: Scalars, start: nat)
    requires start <= Size(text)
    ensures |Encode(text)| == Size(text)
    ensures DropContinuation(Encode(text)[start..]) == Encode(text[CutAt(text, start)..])
  {
    EncodeSize(text);
    if start == 0 {
      EncodedStart(text);
      assert text[0..] == text && Encode(text)[0..] == Encode(text);
    } else {
      var rest, one := text[1..], EncodeOne(text[0]);
      EncodedShape(text[0]);
      EncodedStart(rest);
      EncodeSize(rest);
      CutOne(one, Encode(rest), start);
      hide EncodeOne, Width;
      if start <= |one| {
        assert CutAt(rest, start - |one|) == 0;
      } else {
        CutByte(rest, start - |one|);
        var k := CutAt(rest, start - |one|);
        assert text[1 + k..] == rest[k..];
      }
    }
  }

  /** One encoded character and what follows it, cut at a byte after the first. */
  lemma {:induction false} CutOne(one: Bytes, others: Bytes, start: nat)
    requires 0 < start <= |one| + |others|
    requires forall i :: 0 < i < |one| ==> IsContinuation(one[i])
    requires DropContinuation(others) == others
    ensures DropContinuation((one + others)[start..]) ==
            if start <= |one| then others else DropContinuation(others[start - |one|..])
  {
    SliceConcat(one, others, start);
    if start <= |one| {
      DropContinuationPast(one[start..], others);
    }
  }

  /** utf8Tail: skip to the first byte that starts a character, and decode from there. */
  method Utf8Tail(text: Scalars, maxBytes: nat) returns (r: Scalars)
    ensures r == Tail(text, maxBytes)
  {
    hide DecodeOne, EncodeOne, Width;
    var bytes := Encode(text);
    EncodeSize(text);
    if |bytes| <= maxBytes {
      return text;
    }
    var start := |bytes| - maxBytes;
    CutByte(text, start);
    CutIsTail(text, maxBytes);
    ghost var from := bytes[start..];
    while start < |bytes| && IsContinuation(bytes[start])
      invariant start <= |bytes|
      invariant DropContinuation(bytes[start..]) == DropContinuation(from)
    {
      assert bytes[start..][1..] == bytes[start + 1..];
      start := start + 1;
    }
    DecodeEncoded(Tail(text, maxBytes));
    return Decode(bytes[start..]).chars;
  }

  // ---------------------------------------------------------------- BoundedTextBuffer

  function Join(chunks: seq<Scalars>): Scalars {
    if chunks == [] then [] else chunks[0] + Join(chunks[1..])
  }

  lemma {:induction false} JoinAppend(chunks: seq<Scalars>, c: Scalars)
    ensures Join(chunks + [c]) == Join(chunks) + c
  {
    if chunks == [] {
      assert [c][1..] == [];
    } else {
      assert (chunks + [c])[1..] == chunks[1..] + [c];
      JoinAppend(chunks[1..], c);
    }
  }

  lemma JoinOne(c: Scalars)
    ensures Join([c]) == c && Join([]) == []
  {
    assert [c][1..] == [];
  }

  /** Dropping a whole first chunk that the limit has no room for. */
  lemma DropFirst(chunks: seq<Scalars>, head: nat, limit: nat)
    requires head < |chunks|
    ensures var first, rest := chunks[head], Join(chunks[head + 1..]);
            && Size(Join(chunks[head..])) == Size(first) + Size(rest)
            && (Size(rest) >= limit ==> Tail(Join(chunks[head..]), limit) == Tail(rest, limit))
  {
    var first, rest := chunks[head], Join(chunks[head + 1..]);
    assert chunks[head..][1..] == chunks[head + 1..];
    SizeConcat(first, rest);
    if Size(rest) >= limit {
      TailDropsFront(first, rest, limit);
    }
  }

  /** Cutting the first chunk when the others fit. */
  lemma CutFirst(chunks: seq<Scalars>, head: nat, limit: nat, cut: Scalars)
    requires head < |chunks| && Size(Join(chunks[head + 1..])) <= limit
    requires cut == Tail(chunks[head], limit - Size(Join(chunks[head + 1..])))
    ensures Join(chunks[head := cut][head..]) == Tail(Join(chunks[head..]), limit)
    ensures Size(Join(chunks[head := cut][head..])) == Size(cut) + Size(Join(chunks[head + 1..]))
  {
    var first, rest := chunks[head], Join(chunks[head + 1..]);
    assert chunks[head..][1..] == chunks[head + 1..];
    TailCutsFront(first, rest, limit);
    var others := chunks[head := cut];
    assert others[head..][1..] == chunks[head + 1..];
    SizeConcat(cut, rest);
  }

  /** The sizes recorded beside the chunks are their sizes. */
  predicate MeasuredChunks(chunks: seq<Scalars>, sizes: seq<nat>, head: nat) {
    && |chunks| == |sizes| && head <= |chunks|
    && forall i :: head <= i < |chunks| ==> sizes[i] == Size(chunks[i])
  }

  lemma MeasuredChunksStep(chunks: seq<Scalars>, sizes: seq<nat>, head: nat, c: Scalars)
    requires MeasuredChunks(chunks, sizes, head)
    ensures MeasuredChunks(chunks + [c], sizes + [Size(c)], head)
    ensures head < |chunks| ==>
              && sizes[head] == Size(chunks[head])
              && MeasuredChunks(chunks, sizes, head + 1)
              && MeasuredChunks(chunks[head := c], sizes[head := Size(c)], head)
    ensures MeasuredChunks(chunks[head..], sizes[head..], 0)
  {
  }

  lemma MeasuredChunksNew(c: Scalars)
    ensures MeasuredChunks([c], [Size(c)], 0) && MeasuredChunks([], [], 0)
    ensures Size([]) == 0
  {
  }

  class BoundedTextBuffer {
    const maxBytes: nat
    var chunks: seq<Scalars>
    var chunkBytes: seq<nat>
    var head: nat
    var retainedBytes: int
    var droppedBytes: int
    /** Everything appended so far. */
    ghost var appended: Scalars

    ghost predicate Shape()
      reads this
    {
      && |chunks| == |chunkBytes| && head <= |chunks|
      && MeasuredChunks(chunks, chunkBytes, head)
      && retainedBytes == Size(Kept())
    }

    function Kept(): Scalars
      requires head <= |chunks|
      reads this
    {
      Join(chunks[head..])
    }

    ghost predicate Valid()
      reads this
    {
      && maxBytes >= 1
      && Shape()
      && Kept() == Tail(appended, maxBytes)
      && retainedBytes + droppedBytes == Size(appended)
    }

    constructor (limit: int)
      ensures Valid() && appended == [] && maxBytes == Max(1, limit) && droppedBytes == 0
    {
      maxBytes := Max(1, limit);
      chunks, chunkBytes, head, retainedBytes, droppedBytes := [], [], 0, 0, 0;
      appended := [];
    }

    method Append(text: Scalars)
      requires Valid()
      modifies this
      ensures Valid() && appended == old(appended) + text
    {
      hide Width, Tail, Size, Join, MeasuredChunks;
      TailAppend(appended, text, maxBytes);
      SizeConcat(appended, text);
      if |text| == 0 {
        assert appended + text == appended;
        return;
      }
      ghost var before := Kept();
      var bytes := Size(text);
      if bytes >= maxBytes {
        TailDropsFront(before, text, maxBytes);
        droppedBytes := droppedBytes + retainedBytes + bytes;
        var tail := Utf8Tail(text, maxBytes);
        var tailBytes := Size(tail);
        droppedBytes := droppedBytes - tailBytes;
        chunks, chunkBytes, head, retainedBytes := [], [], 0, tailBytes;
        if |tail| > 0 {
          chunks, chunkBytes := chunks + [tail], chunkBytes + [tailBytes];
        }
        JoinOne(tail);
        MeasuredChunksNew(tail);
        assert [] + [tail] == [tail] && [] + [tailBytes] == [tailBytes];
        assert chunks[0..] == chunks;
        assert Kept() == tail;
        appended := appended + text;
        return;
      }
      MeasuredChunksStep(chunks, chunkBytes, head, text);
      JoinAppend(chunks[head..], text);
      SizeConcat(before, text);
      assert (chunks + [text])[head..] == chunks[head..] + [text];
      chunks, chunkBytes := chunks + [text], chunkBytes + [bytes];
      retainedBytes := retainedBytes + bytes;
      appended := appended + text;
      TrimHead(retainedBytes - maxBytes);
    }

    /** Cuts the kept text back to the limit; compaction leaves it alone. */
    method TrimHead(bytesToDrop: int)
      requires Shape() && maxBytes >= 1
      requires bytesToDrop == retainedBytes - maxBytes
      modifies this`chunks, this`chunkBytes, this`head, this`retainedBytes, this`droppedBytes
      ensures Shape()
      ensures Kept() == Tail(old(Kept()), maxBytes)
      ensures retainedBytes + droppedBytes == old(retainedBytes + droppedBytes)
    {
      hide Width, Tail, Join, Size, MeasuredChunks;
      var remaining := bytesToDrop;
      ghost var all := Kept();
      TailWhole(all, maxBytes);
      while remaining > 0 && head < |chunks|
        invariant Shape()
        invariant remaining > 0 ==> remaining == retainedBytes - maxBytes
        invariant if remaining > 0 then Tail(Kept(), maxBytes) == Tail(all, maxBytes) else Kept() == Tail(all, maxBytes)
        invariant retainedBytes + droppedBytes == old(retainedBytes + droppedBytes)
        decreases |chunks| - head, remaining
      {
        MeasuredChunksStep(chunks, chunkBytes, head, Tail(chunks[head], chunkBytes[head] - remaining));
        var firstBytes := chunkBytes[head];
        DropFirst(chunks, head, maxBytes);
        if firstBytes <= remaining {
          TailWhole(Join(chunks[head + 1..]), maxBytes);
          remaining := remaining - firstBytes;
          retainedBytes := retainedBytes - firstBytes;
          droppedBytes := droppedBytes + firstBytes;
          head := head + 1;
          continue;
        }
        var retained := Utf8Tail(chunks[head], firstBytes - remaining);
        CutFirst(chunks, head, maxBytes, retained);
        var retainedByteLength := Size(retained);
        var dropped := firstBytes - retainedByteLength;
        chunks := chunks[head := retained];
        chunkBytes := chunkBytes[head := retainedByteLength];
        retainedBytes := retainedBytes - dropped;
        droppedBytes := droppedBytes + dropped;
        remaining := 0;
      }
      JoinOne([]);
      MeasuredChunksNew([]);
      assert head == |chunks| ==> chunks[head..] == [];
      Compact();
    }

    /** Forgets the dropped chunks once there are many of them. */
    method Compact()
      requires Shape()
      modifies this`chunks, this`chunkBytes, this`head
      ensures Shape() && Kept() == old(Kept())
    {
      if head > 1024 && head * 2 > |chunks| {
        assert chunks[head..][0..] == chunks[head..];
        chunks, chunkBytes, head := chunks[head..], chunkBytes[head..], 0;
      }
    }

    /** value(): exactly the longest suffix of everything appended that fits. */
    method Value() returns (r: Scalars)
      requires Valid()
      ensures r == Tail(appended, maxBytes)
    {
      r := Join(chunks[head..]);
    }
  }

  /** What the refinement means for the caller of `value()`. */
  lemma BufferContract(appended: Scalars, limit: nat)
    requires limit >= 1
    ensures var v := Tail(appended, limit);
            && |v| <= |appended| && v == appended[|appended| - |v|..]
            && Size(v) <= limit
            && (Size(appended) <= limit ==> v == appended)
            && (|v| < |appended| ==> limit - 3 <= Size(v) && Size(appended) > limit)
            && forall k :: 0 <= k < |appended| - |v| ==> Size(appended[k..]) > limit
  {
    var v := Tail(appended, limit);
    TailIsSuffix(appended, limit);
    forall k | 0 <= k < |appended| - |v| ensures Size(appended[k..]) > limit {
      TailLongest(appended, limit, k);
    }
    if |v| < |appended| {
      TailLongest(appended, limit, 0);
      assert appended[0..] == appended;
    }
  }

  // ---------------------------------------------------------------- BoundedAgentStreamEventBuffer

  /** Total size of the events, each measured by its serialization. */
  function TotalBytes<E>(es: seq<E>, size: E -> nat): nat {
    if es == [] then 0 else size(es[0]) + TotalBytes(es[1..], size)
  }

  lemma {:induction false} TotalBytesConcat<E>(a: seq<E>, b: seq<E>, size: E -> nat)
    ensures TotalBytes(a + b, size) == TotalBytes(a, size) + TotalBytes(b, size)
  {
    if a == [] {
      assert a + b == b;
    } else {
      assert (a + b)[1..] == a[1..] + b;
      TotalBytesConcat(a[1..], b, size);
    }
  }

  predicate Fits<E>(es: seq<E>, size: E -> nat, maxEvents: nat, maxBytes: nat) {
    |es| <= maxEvents && TotalBytes(es, size) <= maxBytes
  }

  /** The longest suffix within both limits. */
  function LongestFit<E>(es: seq<E>, size: E -> nat, maxEvents: nat, maxBytes: nat): seq<E> {
    if es == [] || Fits(es, size, maxEvents, maxBytes) then es else LongestFit(es[1..], size, maxEvents, maxBytes)
  }

  /** It is a suffix that fits, and no longer suffix does. */
  lemma {:induction false} LongestFitIsLongest<E>(es: seq<E>, size: E -> nat, maxEvents: nat, maxBytes: nat)
    ensures var r := LongestFit(es, size, maxEvents, maxBytes);
            && |r| <= |es| && r == es[|es| - |r|..]
            && Fits(r, size, maxEvents, maxBytes)
            && forall k :: 0 <= k < |es| - |r| ==> !Fits(es[k..], size, maxEvents, maxBytes)
  {
    assert es[0..] == es;
    if es != [] && !Fits(es, size, maxEvents, maxBytes) {
      LongestFitIsLongest(es[1..], size, maxEvents, maxBytes);
      var r := LongestFit(es[1..], size, maxEvents, maxBytes);
      assert forall k :: 1 <= k <= |es| ==> es[k..] == es[1..][k - 1..];
    }
  }

  /** Events that would fit on their own. */
  function Admissible<E>(es: seq<E>, size: E -> nat, maxBytes: nat): seq<E> {
    if es == [] then []
    else
      var front := Admissible(es[..|es| - 1], size, maxBytes);
      if size(es[|es| - 1]) <= maxBytes then front + [es[|es| - 1]] else front
  }

  lemma AdmissibleAppend<E>(es: seq<E>, e: E, size: E -> nat, maxBytes: nat)
    ensures Admissible(es + [e], size, maxBytes) ==
            Admissible(es, size, maxBytes) + if size(e) <= maxBytes then [e] else []
  {
    assert (es + [e])[..|es|] == es;
  }

  /** Evicting before or after appending leaves the same events. */
  lemma {:induction false} LongestFitAppend<E>(es: seq<E>, e: E, size: E -> nat, maxEvents: nat, maxBytes: nat)
    ensures LongestFit(LongestFit(es, size, maxEvents, maxBytes) + [e], size, maxEvents, maxBytes) ==
            LongestFit(es + [e], size, maxEvents, maxBytes)
  {
    if es != [] && !Fits(es, size, maxEvents, maxBytes) {
      TotalBytesConcat(es, [e], size);
      assert (es + [e])[1..] == es[1..] + [e];
      LongestFitAppend(es[1..], e, size, maxEvents, maxBytes);
    }
  }

  lemma LastAlone<E>(events: seq<E>, head: nat, size: E -> nat)
    requires head + 1 == |events|
    ensures TotalBytes(events[head..], size) == size(events[head])
  {
    assert events[head..][1..] == [];
  }

  /** Evicting the first event when the limits are exceeded. */
  lemma EvictFirst<E>(events: seq<E>, head: nat, size: E -> nat, maxEvents: nat, maxBytes: nat)
    requires head < |events|
    requires |events| - head > maxEvents || TotalBytes(events[head..], size) > maxBytes
    requires maxEvents >= 1 && size(events[|events| - 1]) <= maxBytes
    ensures head + 1 < |events|
    ensures TotalBytes(events[head..], size) == size(events[head]) + TotalBytes(events[head + 1..], size)
    ensures LongestFit(events[head..], size, maxEvents, maxBytes) == LongestFit(events[head + 1..], size, maxEvents, maxBytes)
  {
    assert events[head..][1..] == events[head + 1..];
    if |events| - head == 1 {
      LastAlone(events, head, size);
    }
  }

  /** Nothing is evicted within the limits. */
  lemma EvictNone<E>(events: seq<E>, size: E -> nat, maxEvents: nat, maxBytes: nat)
    requires |events| <= maxEvents && TotalBytes(events, size) <= maxBytes
    ensures LongestFit(events, size, maxEvents, maxBytes) == events
  {
  }

  lemma TotalBytesAppend<E>(es: seq<E>, e: E, size: E -> nat)
    ensures TotalBytes(es + [e], size) == TotalBytes(es, size) + size(e)
  {
    TotalBytesConcat(es, [e], size);
  }

  lemma AppendBehind<E>(events: seq<E>, head: nat, e: E, size: E -> nat)
    requires head <= |events|
    ensures (events + [e])[head..] == events[head..] + [e]
    ensures TotalBytes((events + [e])[head..], size) == TotalBytes(events[head..], size) + size(e)
  {
    TotalBytesAppend(events[head..], e, size);
    assert (events + [e])[head..] == events[head..] + [e];
  }

  predicate Measured<E>(items: seq<E>, sizes: seq<nat>, head: nat, size: E -> nat) {
    && |items| == |sizes| && head <= |items|
    && forall i :: head <= i < |items| ==> sizes[i] == size(items[i])
  }

  lemma MeasuredStep<E>(items: seq<E>, sizes: seq<nat>, head: nat, size: E -> nat, e: E)
    requires Measured(items, sizes, head, size)
    ensures Measured(items + [e], sizes + [size(e)], head, size)
    ensures head < |items| ==>
              && sizes[head] == size(items[head])
              && Measured(items, sizes, head + 1, size)
              && Measured(items[head := e], sizes[head := size(e)], head, size)
    ensures Measured(items[head..], sizes[head..], 0, size)
  {
  }

  class BoundedAgentStreamEventBuffer<E> {
    const maxEvents: nat
    const maxBytes: nat
    const size: E -> nat
    var events: seq<E>
    var eventBytes: seq<nat>
    var head: nat
    var retainedBytes: int
    var droppedEvents: nat
    var droppedBytes: int
    ghost var pushed: seq<E>

    ghost predicate Shape()
      reads this
    {
      && maxEvents >= 1 && maxBytes >= 1
      && |events| == |eventBytes| && head <= |events|
      && Measured(events, eventBytes, head, size)
      && retainedBytes == TotalBytes(events[head..], size)
    }

    ghost predicate Valid()
      reads this
    {
      && Shape()
      && events[head..] == LongestFit(Admissible(pushed, size, maxBytes), size, maxEvents, maxBytes)
      && |events| - head + droppedEvents == |pushed|
      && retainedBytes + droppedBytes == TotalBytes(pushed, size)
    }

    constructor (events': int, bytes': int, size: E -> nat)
      ensures Valid() && pushed == [] && maxEvents == Max(1, events') && maxBytes == Max(1, bytes')
      ensures this.size == size
    {
      maxEvents, maxBytes := Max(1, events'), Max(1, bytes');
      this.size := size;
      events, eventBytes, head, retainedBytes, droppedEvents, droppedBytes := [], [], 0, 0, 0, 0;
      pushed := [];
    }

    method Push(event: E)
      requires Valid()
      modifies this
      ensures Valid() && pushed == old(pushed) + [event]
    {
      hide Admissible, LongestFit, Fits, TotalBytes, Measured;
      var bytes := size(event);
      TotalBytesAppend(pushed, event, size);
      AdmissibleAppend(pushed, event, size, maxBytes);
      ghost var admissible := Admissible(pushed, size, maxBytes);
      pushed := pushed + [event];
      if bytes > maxBytes {
        assert admissible + [] == admissible;
        droppedEvents := droppedEvents + 1;
        droppedBytes := droppedBytes + bytes;
        return;
      }
      LongestFitAppend(admissible, event, size, maxEvents, maxBytes);
      Keep(event, bytes);
      Evict();
      Compact();
    }

    /** The event goes behind the others. */
    method Keep(event: E, bytes: nat)
      requires Shape() && bytes == size(event)
      modifies this`events, this`eventBytes, this`retainedBytes
      ensures Shape() && head < |events| && events[|events| - 1] == event
      ensures events[head..] == old(events[head..]) + [event]
      ensures |events| == old(|events|) + 1 && retainedBytes == old(retainedBytes) + bytes
    {
      hide TotalBytes, Measured;
      MeasuredStep(events, eventBytes, head, size, event);
      AppendBehind(events, head, event, size);
      events, eventBytes := events + [event], eventBytes + [bytes];
      retainedBytes := retainedBytes + bytes;
    }

    /** The eviction loop of `push`: the newest event always stays. */
    method Evict()
      requires Shape() && head < |events| && size(events[|events| - 1]) <= maxBytes
      modifies this`head, this`retainedBytes, this`droppedEvents, this`droppedBytes
      ensures Shape() && head < |events|
      ensures events[head..] == LongestFit(old(events[head..]), size, maxEvents, maxBytes)
      ensures |events| - head + droppedEvents == old(|events| - head + droppedEvents)
      ensures retainedBytes + droppedBytes == old(retainedBytes + droppedBytes)
    {
      hide LongestFit, Fits, TotalBytes, Measured;
      while |events| - head > maxEvents || retainedBytes > maxBytes
        invariant Shape() && head < |events|
        invariant LongestFit(events[head..], size, maxEvents, maxBytes) ==
                  LongestFit(old(events[head..]), size, maxEvents, maxBytes)
        invariant |events| - head + droppedEvents == old(|events| - head + droppedEvents)
        invariant retainedBytes + droppedBytes == old(retainedBytes + droppedBytes)
        decreases |events| - head
      {
        MeasuredStep(events, eventBytes, head, size, events[head]);
        EvictFirst(events, head, size, maxEvents, maxBytes);
        var dropped := eventBytes[head];
        retainedBytes := retainedBytes - dropped;
        droppedBytes := droppedBytes + dropped;
        droppedEvents := droppedEvents + 1;
        head := head + 1;
      }
      EvictNone(events[head..], size, maxEvents, maxBytes);
    }

    /** Forgets the dropped events once there are many of them. */
    method Compact()
      requires Shape()
      modifies this`events, this`eventBytes, this`head
      ensures Shape() && events[head..] == old(events[head..])
      ensures |events| - head == old(|events| - head)
    {
      if head > 1024 && head * 2 > |events| {
        assert events[head..][0..] == events[head..];
        events, eventBytes, head := events[head..], eventBytes[head..], 0;
      }
    }

    method ToArray() returns (r: seq<E>)
      requires Valid()
      ensures r == LongestFit(Admissible(pushed, size, maxBytes), size, maxEvents, maxBytes)
      ensures |r| + droppedEvents == |pushed|
      ensures TotalBytes(r, size) + droppedBytes == TotalBytes(pushed, size)
    {
      r := events[head..];
    }
  }

  /** In pieces and in order, and of a single event exactly if it is within the limit. */
  lemma {:induction false} AdmissibleExact<E>(a: seq<E>, b: seq<E>, e: E, size: E -> nat, maxBytes: nat)
    ensures Admissible(a + b, size, maxBytes) == Admissible(a, size, maxBytes) + Admissible(b, size, maxBytes)
    ensures Admissible([e], size, maxBytes) == if size(e) > maxBytes then [] else [e]
    decreases |b|
  {
    var none: seq<E> := [];
    assert none + [e] == [e];
    AdmissibleAppend(none, e, size, maxBytes);
    if b == [] {
      assert a + b == a;
    } else {
      var n := |b| - 1;
      AdmissibleExact(a, b[..n], e, size, maxBytes);
      assert a + b == (a + b[..n]) + [b[n]];
      AdmissibleAppend(a + b[..n], b[n], size, maxBytes);
    }
  }
}
