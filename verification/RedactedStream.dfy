/**
 Bounded audit buffering of an agent stream (packages/core/src/redacted-agent-stream.ts).

 The two redaction functions are parameters; the sink is the sequence of emitted events. What is
 buffered of a channel goes out in slices, one per entry, which the module RedactedSlices is about.
 */
module RedactedStream {
  import opened Prelude
  import opened Utf16
  import opened RedactedSlices

  // ---------------------------------------------------------------- channels

  /** A text channel: what is buffered, and where its JSON nesting and quoting stand. */
  datatype Channel = Channel(key: Text, text: Text, depth: nat, quoted: bool, escaped: bool)

  function ScanOne(c: Channel, u: Unit): Channel {
    if c.quoted then
      if c.escaped then c.(escaped := false)
      else if u == BACKSLASH then c.(escaped := true)
      else if u == QUOTE then c.(quoted := false)
      else c
    else if u == QUOTE then c.(quoted := true)
    else if u == 0x7B || u == 0x5B then c.(depth := c.depth + 1)
    else if u == 0x7D || u == 0x5D then c.(depth := if c.depth > 0 then c.depth - 1 else 0)
    else c
  }

  function ScanText(c: Channel, t: Text): Channel
    decreases |t|
  {
    if t == [] then c else ScanText(ScanOne(c, t[0]), t[1..])
  }

  lemma {:induction false} ScanTextAppend(c: Channel, t: Text, u: Unit)
    ensures ScanText(c, t + [u]) == ScanOne(ScanText(c, t), u)
    ensures ScanText(c, t).key == c.key && ScanText(c, t).text == c.text
    decreases |t|
  {
    if t != [] {
      assert (t + [u])[1..] == t[1..] + [u];
      ScanTextAppend(ScanOne(c, t[0]), t[1..], u);
    } else {
      assert ([] + [u])[1..] == [];
    }
  }

  /** scan: one pass over the text. */
  method Scan(c: Channel, text: Text) returns (r: Channel)
    ensures r == ScanText(c, text) && r.key == c.key && r.text == c.text
  {
    r := c;
    for i := 0 to |text|
      invariant r == ScanText(c, text[..i]) && r.key == c.key && r.text == c.text
    {
      assert text[..i + 1] == text[..i] + [text[i]];
      ScanTextAppend(c, text[..i], text[i]);
      r := ScanOne(r, text[i]);
    }
    assert text[..|text|] == text;
  }

  function KeyOf(e: Event): Text
    requires IsText(e)
  {
    e.invocationId + [0x3A] + if e.Raw? then e.source else Lit("assistant")
  }

  predicate Settled(channels: seq<Channel>) {
    forall i :: 0 <= i < |channels| ==> !channels[i].quoted && channels[i].depth == 0
  }

  predicate DistinctChannels(channels: seq<Channel>) {
    forall i, j :: 0 <= i < j < |channels| ==> channels[i].key != channels[j].key
  }

  /** Position of the channel, or the number of channels. */
  function Find(channels: seq<Channel>, key: Text): (i: nat)
    ensures i <= |channels|
    ensures i < |channels| ==> channels[i].key == key
    ensures i == |channels| ==> forall j :: 0 <= j < i ==> channels[j].key != key
  {
    if channels == [] || channels[0].key == key then 0 else 1 + Find(channels[1..], key)
  }

  function BufferedChars(channels: seq<Channel>): nat {
    if channels == [] then 0 else |channels[0].text| + BufferedChars(channels[1..])
  }

  lemma {:induction false} BufferedUpdate(channels: seq<Channel>, i: nat, c: Channel)
    requires i < |channels|
    ensures BufferedChars(channels[i := c]) == BufferedChars(channels) - |channels[i].text| + |c.text|
  {
    if i == 0 {
      assert channels[i := c][1..] == channels[1..];
    } else {
      assert channels[i := c][1..] == channels[1..][i - 1 := c];
      BufferedUpdate(channels[1..], i - 1, c);
    }
  }

  lemma {:induction false} BufferedAppend(channels: seq<Channel>, c: Channel)
    ensures BufferedChars(channels + [c]) == BufferedChars(channels) + |c.text|
  {
    if channels == [] {
      assert [c][1..] == [];
    } else {
      assert (channels + [c])[1..] == channels[1..] + [c];
      BufferedAppend(channels[1..], c);
    }
  }

  function Emptied(channels: seq<Channel>): (r: seq<Channel>)
    ensures |r| == |channels|
    ensures forall i :: 0 <= i < |r| ==> r[i] == channels[i].(text := [])
  {
    seq(|channels|, i requires 0 <= i < |channels| => channels[i].(text := []))
  }

  lemma {:induction false} EmptiedBuffered(channels: seq<Channel>)
    requires forall i :: 0 <= i < |channels| ==> channels[i].text == []
    ensures BufferedChars(channels) == 0
  {
    if channels != [] {
      EmptiedBuffered(channels[1..]);
    }
  }

  // ---------------------------------------------------------------- counting entries

  /** Entries of the channel in [i, n). */
  function Count(batch: seq<Entry>, i: nat, n: nat, k: Text): nat
    requires i <= n <= |batch|
    decreases n - i
  {
    if i == n then 0 else (if batch[i].channel == Some(k) then 1 else 0) + Count(batch, i + 1, n, k)
  }

  lemma {:induction false} CountAppend(batch: seq<Entry>, i: nat, n: nat, k: Text)
    requires i <= n < |batch|
    ensures Count(batch, i, n + 1, k) == Count(batch, i, n, k) + if batch[n].channel == Some(k) then 1 else 0
    decreases n - i
  {
    if i < n {
      CountAppend(batch, i + 1, n, k);
    }
  }

  lemma {:induction false} CountZero(batch: seq<Entry>, i: nat, k: Text)
    requires i <= |batch|
    ensures Count(batch, i, |batch|, k) == 0 <==> forall j :: i <= j < |batch| ==> batch[j].channel != Some(k)
    decreases |batch| - i
  {
    if i < |batch| {
      CountZero(batch, i + 1, k);
    }
  }

  function GetOr(m: map<Text, int>, k: Text): int {
    if k in m then m[k] else 0
  }

  /** The text a flush takes from each channel. */
  function FlushText(channels: seq<Channel>, omit: bool, redact: Text -> Text, k: Text): Text {
    var i := Find(channels, k);
    if i == |channels| then [] else if omit then MARKER else redact(channels[i].text)
  }

  function FlushTexts(channels: seq<Channel>, omit: bool, redact: Text -> Text): Text -> Text {
    (k: Text) => FlushText(channels, omit, redact, k)
  }

  // ---------------------------------------------------------------- the stream as a machine

  datatype Config = Config(maxChars: nat, maxEvents: nat, redact: Text -> Text, redactEvent: Event -> Event)

  datatype State = State(
    channels: seq<Channel>, pending: seq<Entry>, pendingChars: nat, discarding: bool, emitted: seq<Event>)

  /** All buffered events go out, with their text or without it. */
  function Flushed(s: State, omit: bool, c: Config): State {
    State(
      if omit then Emptied(s.channels) else [], [], 0, s.discarding,
      s.emitted + Emitted(s.pending, |s.pending|, FlushTexts(s.channels, omit, c.redact), omit, c.redactEvent))
  }

  function FlushedAll(s: State, c: Config): State {
    Flushed(s, false, c).(channels := [], discarding := false)
  }

  function AfterNotice(s: State, e: Event, c: Config): State {
    var redacted := c.redactEvent(e);
    if s.pending == [] then s.(emitted := s.emitted + [redacted])
    else
      var t := s.(pending := s.pending + [Entry(redacted, None, 0)]);
      if |t.pending| > c.maxEvents then Flushed(t, true, c).(discarding := true) else t
  }

  /** The channels after scanning the text of an event. */
  function Scanned(channels: seq<Channel>, e: Event): (r: seq<Channel>)
    requires IsText(e)
    ensures Find(channels, KeyOf(e)) < |r|
  {
    var at := Find(channels, KeyOf(e));
    var known := if at == |channels| then channels + [Channel(KeyOf(e), [], 0, false, false)] else channels;
    known[at := ScanText(known[at], e.text)]
  }

  predicate AtBoundary(channels: seq<Channel>, e: Event)
    requires IsText(e)
  {
    (e.Assistant? || (e.text != [] && e.text[|e.text| - 1] == NEWLINE)) && Settled(channels)
  }

  function AfterBuffering(s: State, e: Event, at: nat, boundary: bool, c: Config): State
    requires IsText(e) && at < |s.channels|
  {
    var t := s.(pending := s.pending + [Entry(WithText(e, []), Some(KeyOf(e)), |e.text|)]);
    if s.pendingChars + |e.text| > c.maxChars || |t.pending| > c.maxEvents then
      var f := Flushed(t, true, c);
      f.(discarding := !boundary, channels := if boundary then [] else f.channels)
    else
      var u := t.(channels := s.channels[at := s.channels[at].(text := s.channels[at].text + e.text)],
                  pendingChars := s.pendingChars + |e.text|);
      if boundary then Flushed(u, false, c) else u
  }

  function AfterText(s: State, e: Event, c: Config): State
    requires IsText(e)
  {
    var t := s.(channels := Scanned(s.channels, e));
    var boundary := AtBoundary(t.channels, e);
    if s.discarding then
      if boundary then t.(channels := [], discarding := false) else t
    else AfterBuffering(t, e, Find(s.channels, KeyOf(e)), boundary, c)
  }

  /** push(event). */
  function AfterPush(s: State, e: Event, c: Config): State {
    if e.Terminal? then
      var f := FlushedAll(s, c);
      f.(emitted := f.emitted + [c.redactEvent(e)])
    else if e.Notice? then AfterNotice(s, e, c)
    else AfterText(s, e, c)
  }

  // ---------------------------------------------------------------- invariants

  predicate EntryFits(e: Entry, input: Text, channels: seq<Channel>) {
    match e.channel
    case None => e.length == 0
    case Some(k) => e.length == |input| && Find(channels, k) < |channels|
  }

  /** Every buffered entry has its channel. */
  ghost predicate Shaped(channels: seq<Channel>, batch: seq<Entry>, inputs: seq<Text>) {
    && |inputs| == |batch|
    && DistinctChannels(channels)
    && forall i :: 0 <= i < |batch| ==> EntryFits(batch[i], inputs[i], channels)
  }

  /** Buffered text and buffered entries agree, channel by channel and in total. */
  ghost predicate Agree(channels: seq<Channel>, batch: seq<Entry>, inputs: seq<Text>, chars: nat) {
    && Shaped(channels, batch, inputs)
    && (forall i :: 0 <= i < |channels| ==> channels[i].text == ChannelInput(batch, inputs, channels[i].key))
    && chars == TotalLength(batch) == BufferedChars(channels)
  }

  predicate Increasing(from: seq<nat>, limit: nat) {
    && (forall i, j :: 0 <= i < j < |from| ==> from[i] < from[j])
    && (forall i :: 0 <= i < |from| ==> from[i] < limit)
  }

  /** An emitted event is a pushed one, redacted, possibly with other text. */
  ghost predicate StemsFrom(out: Event, e: Event, redactEvent: Event -> Event) {
    out == redactEvent(e) || (IsText(e) && exists t :: out == redactEvent(WithText(e, t)))
  }

  /** A buffered entry holds a redacted event, or a text event without its text. */
  predicate EntryOf(entry: Entry, e: Event, redactEvent: Event -> Event) {
    if entry.channel.None? then entry.event == redactEvent(e)
    else IsText(e) && entry.event == WithText(e, [])
  }

  /** Emitted events stem from pushed ones, in order and each at most once. */
  ghost predicate EmittedInOrder(out: seq<Event>, from: seq<nat>, pushed: seq<Event>, redactEvent: Event -> Event) {
    && |from| == |out| && Increasing(from, |pushed|)
    && forall i :: 0 <= i < |out| ==> StemsFrom(out[i], pushed[from[i]], redactEvent)
  }

  ghost predicate BufferedInOrder(batch: seq<Entry>, from: seq<nat>, pushed: seq<Event>, redactEvent: Event -> Event) {
    && |from| == |batch| && Increasing(from, |pushed|)
    && forall i :: 0 <= i < |batch| ==> EntryOf(batch[i], pushed[from[i]], redactEvent)
  }

  predicate AllBefore(a: seq<nat>, b: seq<nat>) {
    forall i, j :: 0 <= i < |a| && 0 <= j < |b| ==> a[i] < b[j]
  }

  /** The counting loop of `flushPending`. */
  method CountEntries(batch: seq<Entry>) returns (remaining: map<Text, int>)
    ensures forall k :: GetOr(remaining, k) == Count(batch, 0, |batch|, k)
  {
    remaining := map[];
    for i := 0 to |batch|
      invariant forall k :: GetOr(remaining, k) == Count(batch, 0, i, k)
    {
      forall k ensures Count(batch, 0, i + 1, k) == Count(batch, 0, i, k) + if batch[i].channel == Some(k) then 1 else 0 {
        CountAppend(batch, 0, i, k);
      }
      if batch[i].channel.Some? {
        var key := batch[i].channel.value;
        remaining := remaining[key := GetOr(remaining, key) + 1];
      }
    }
  }

  predicate RemainingIs(remaining: map<Text, int>, batch: seq<Entry>, i: nat, k: Text)
    requires i <= |batch|
  {
    GetOr(remaining, k) == Count(batch, i, |batch|, k)
  }

  ghost predicate RemainingAre(remaining: map<Text, int>, batch: seq<Entry>, i: nat)
    requires i <= |batch|
  {
    forall k :: RemainingIs(remaining, batch, i, k)
  }

  predicate OffsetIs(offsets: map<Text, int>, batch: seq<Entry>, i: nat, texts: Text -> Text, omit: bool, k: Text)
    requires i <= |batch|
  {
    GetOr(offsets, k) == Taken(batch, i, k, |texts(k)|, omit)
  }

  ghost predicate OffsetsAre(offsets: map<Text, int>, batch: seq<Entry>, i: nat, texts: Text -> Text, omit: bool)
    requires i <= |batch|
  {
    forall k :: OffsetIs(offsets, batch, i, texts, omit, k)
  }

  lemma EmitStart(
      batch: seq<Entry>, remaining: map<Text, int>, texts: Text -> Text, omit: bool, redactEvent: Event -> Event)
    requires forall k :: GetOr(remaining, k) == Count(batch, 0, |batch|, k)
    ensures RemainingAre(remaining, batch, 0) && OffsetsAre(map[], batch, 0, texts, omit)
    ensures Emitted(batch, 0, texts, omit, redactEvent) == []
  {
  }

  lemma EmittedNext(batch: seq<Entry>, i: nat, texts: Text -> Text, omit: bool, redactEvent: Event -> Event)
    requires i < |batch|
    ensures Emitted(batch, i + 1, texts, omit, redactEvent) ==
            Emitted(batch, i, texts, omit, redactEvent) + [Rendered(batch[i], Slice(batch, i, texts, omit), redactEvent)]
  {
  }

  lemma OtherEntry(
      batch: seq<Entry>, i: nat, remaining: map<Text, int>, offsets: map<Text, int>, texts: Text -> Text, omit: bool)
    requires i < |batch| && batch[i].channel.None?
    requires RemainingAre(remaining, batch, i) && OffsetsAre(offsets, batch, i, texts, omit)
    ensures RemainingAre(remaining, batch, i + 1) && OffsetsAre(offsets, batch, i + 1, texts, omit)
  {
    var next := i + 1;
    forall k ensures RemainingIs(remaining, batch, next, k) {
      assert RemainingIs(remaining, batch, i, k);
    }
    forall k ensures OffsetIs(offsets, batch, next, texts, omit, k) {
      assert OffsetIs(offsets, batch, i, texts, omit, k);
    }
  }

  /** Counting the entry off, and whether it was the last of its channel. */
  lemma CountedOff(batch: seq<Entry>, i: nat, remaining: map<Text, int>, key: Text)
    requires i < |batch| && batch[i].channel == Some(key) && RemainingAre(remaining, batch, i)
    ensures var left := GetOr(remaining, key) - 1;
            (left == 0 <==> IsLast(batch, i, key)) && RemainingAre(remaining[key := left], batch, i + 1)
  {
    var left, next := GetOr(remaining, key) - 1, i + 1;
    assert RemainingIs(remaining, batch, i, key);
    CountZero(batch, next, key);
    var updated := remaining[key := left];
    forall k ensures RemainingIs(updated, batch, next, k) {
      assert RemainingIs(remaining, batch, i, k);
    }
  }

  lemma Advanced(
      batch: seq<Entry>, i: nat, offsets: map<Text, int>, texts: Text -> Text, omit: bool, key: Text, end: int)
    requires i < |batch| && batch[i].channel == Some(key) && OffsetsAre(offsets, batch, i, texts, omit)
    requires end == Taken(batch, i + 1, key, |texts(key)|, omit)
    ensures 0 <= GetOr(offsets, key) <= end <= |texts(key)|
    ensures Slice(batch, i, texts, omit) == texts(key)[GetOr(offsets, key)..end]
    ensures OffsetsAre(offsets[key := end], batch, i + 1, texts, omit)
  {
    var next := i + 1;
    assert OffsetIs(offsets, batch, i, texts, omit, key);
    TakenGrows(batch, i, key, |texts(key)|, omit);
    var updated := offsets[key := end];
    forall k ensures OffsetIs(updated, batch, next, texts, omit, k) {
      assert OffsetIs(offsets, batch, i, texts, omit, k);
    }
  }

  lemma ChannelEntry(
      batch: seq<Entry>, i: nat, remaining: map<Text, int>, offsets: map<Text, int>, texts: Text -> Text, omit: bool)
    requires i < |batch| && batch[i].channel.Some?
    requires RemainingAre(remaining, batch, i) && OffsetsAre(offsets, batch, i, texts, omit)
    ensures var key := batch[i].channel.value;
            var offset, left := GetOr(offsets, key), GetOr(remaining, key) - 1;
            var size := |texts(key)|;
            var end := if omit || left == 0 then size else Min(size, offset + batch[i].length);
            && 0 <= offset <= end <= size
            && Slice(batch, i, texts, omit) == texts(key)[offset..end]
            && RemainingAre(remaining[key := left], batch, i + 1)
            && OffsetsAre(offsets[key := end], batch, i + 1, texts, omit)
  {
    var key := batch[i].channel.value;
    assert OffsetIs(offsets, batch, i, texts, omit, key);
    CountedOff(batch, i, remaining, key);
    Advanced(batch, i, offsets, texts, omit, key, Taken(batch, i + 1, key, |texts(key)|, omit));
  }

  // ---------------------------------------------------------------- the stream

  class RedactedAgentStream {
    const maxChars: nat
    const maxEvents: nat
    const redact: Text -> Text
    const redactEvent: Event -> Event
    var channels: seq<Channel>
    var pending: seq<Entry>
    var pendingChars: nat
    var discarding: bool
    var emitted: seq<Event>
    /** The text each buffered entry arrived with. */
    ghost var inputs: seq<Text>
    /** Everything pushed, and which of it each emitted and each buffered event is. */
    ghost var pushed: seq<Event>
    ghost var emittedFrom: seq<nat>
    ghost var pendingFrom: seq<nat>

    function Settings(): Config {
      Config(maxChars, maxEvents, redact, redactEvent)
    }

    function View(): State
      reads this
    {
      State(channels, pending, pendingChars, discarding, emitted)
    }

    ghost predicate Ordered()
      reads this
    {
      && EmittedInOrder(emitted, emittedFrom, pushed, redactEvent)
      && BufferedInOrder(pending, pendingFrom, pushed, redactEvent)
      && AllBefore(emittedFrom, pendingFrom)
    }

    ghost predicate Valid()
      reads this
    {
      && Agree(channels, pending, inputs, pendingChars)
      && Ordered()
      && |pending| <= maxEvents && pendingChars <= maxChars
      && (discarding ==> pending == [])
    }

    constructor (maxChars: int, maxEvents: int, redact: Text -> Text, redactEvent: Event -> Event)
      ensures Valid() && emitted == [] && pushed == []
      ensures this.maxChars == Max(1, maxChars) && this.maxEvents == Max(1, maxEvents)
      ensures this.redact == redact && this.redactEvent == redactEvent
    {
      this.maxChars, this.maxEvents := Max(1, maxChars), Max(1, maxEvents);
      this.redact, this.redactEvent := redact, redactEvent;
      channels, pending, pendingChars, discarding, emitted := [], [], 0, false, [];
      inputs, pushed, emittedFrom, pendingFrom := [], [], [], [];
    }

    /** The emitting loop of `flushPending`, once the entries of each channel are counted. */
    method EmitBatch(batch: seq<Entry>, texts: Text -> Text, omit: bool)
      modifies this`emitted
      ensures emitted == old(emitted) + Emitted(batch, |batch|, texts, omit, redactEvent)
    {
      hide Emitted, OffsetsAre, RemainingAre, Taken, IsLast, Slice;
      var remaining := CountEntries(batch);
      var offsets: map<Text, int> := map[];
      EmitStart(batch, remaining, texts, omit, redactEvent);
      assert emitted + [] == emitted;
      for i := 0 to |batch|
        invariant RemainingAre(remaining, batch, i)
        invariant OffsetsAre(offsets, batch, i, texts, omit)
        invariant emitted == old(emitted) + Emitted(batch, i, texts, omit, redactEvent)
      {
        var entry := batch[i];
        EmittedNext(batch, i, texts, omit, redactEvent);
        if entry.channel.None? {
          OtherEntry(batch, i, remaining, offsets, texts, omit);
          emitted := emitted + [entry.event];
          continue;
        }
        var key := entry.channel.value;
        ChannelEntry(batch, i, remaining, offsets, texts, omit);
        var value := texts(key);
        var offset := GetOr(offsets, key);
        var left := GetOr(remaining, key) - 1;
        var end := if omit || left == 0 then |value| else Min(|value|, offset + entry.length);
        emitted := emitted + [redactEvent(WithText(entry.event, value[offset..end]))];
        offsets := offsets[key := end];
        remaining := remaining[key := left];
      }
    }

    /** flushPending: what the buffered entries of each channel emit is that channel's text. */
    method FlushPending(omit: bool)
      requires Shaped(channels, pending, inputs) && Ordered()
      requires !omit ==> Agree(channels, pending, inputs, pendingChars)
      modifies this
      ensures View() == Flushed(old(View()), omit, Settings())
      ensures inputs == [] && pendingFrom == [] && pushed == old(pushed)
      ensures Agree(channels, pending, inputs, pendingChars) && Ordered()
      ensures emittedFrom == old(emittedFrom + pendingFrom)
      ensures forall i :: 0 <= i < |old(pending)| && old(pending)[i].channel.Some? ==>
                var k := old(pending)[i].channel.value;
                ChannelOutput(old(pending), |old(pending)|, k, FlushTexts(old(channels), omit, redact), omit) ==
                if omit then MARKER else redact(ChannelInput(old(pending), old(inputs), k))
    {
      hide Agree, Shaped, EmittedInOrder, BufferedInOrder, Increasing, AllBefore, StemsFrom, DistinctChannels, Emitted,
        ChannelOutput, ChannelInput, FlushTexts, TotalLength, BufferedChars, ScanText;
      var batch := pending;
      var texts := FlushTexts(channels, omit, redact);
      NothingBuffered(emittedFrom + pendingFrom, pushed, redactEvent);
      FlushConserves(channels, batch, inputs, omit, redact);
      EmittedStems(batch, pendingFrom, pushed, texts, omit, redactEvent);
      EmittedAppend(emitted, emittedFrom, Emitted(batch, |batch|, texts, omit, redactEvent), pendingFrom, pushed, redactEvent);
      EmptiedAgrees(channels, pending, inputs);
      pending, pendingChars, inputs := [], 0, [];
      ghost var from := pendingFrom;
      pendingFrom := [];
      if !omit {
        channels := [];
      } else {
        channels := Emptied(channels);
      }
      EmitBatch(batch, texts, omit);
      emittedFrom := emittedFrom + from;
    }

    /** flush: nothing stays buffered. */
    method Flush()
      requires Valid()
      modifies this
      ensures Valid() && pushed == old(pushed)
      ensures View() == FlushedAll(old(View()), Settings())
      ensures emittedFrom == old(emittedFrom + pendingFrom)
    {
      FlushPending(false);
      channels := [];
      discarding := false;
    }

    method Push(event: Event)
      requires Valid()
      modifies this
      ensures Valid() && pushed == old(pushed) + [event]
      ensures View() == AfterPush(old(View()), event, Settings())
      ensures old(emittedFrom) <= emittedFrom
    {
      hide Agree, Shaped, EmittedInOrder, BufferedInOrder, Increasing, AllBefore, StemsFrom, DistinctChannels, Emitted,
        ChannelOutput, ChannelInput, FlushTexts, TotalLength, BufferedChars, ScanText;
      PushedMore(emitted, emittedFrom, pending, pendingFrom, pushed, event, redactEvent);
      pushed := pushed + [event];
      if event.Terminal? {
        Flush();
        EmittedOne(emitted, emittedFrom, pushed, redactEvent(event), pending, pendingFrom, redactEvent);
        emitted, emittedFrom := emitted + [redactEvent(event)], emittedFrom + [|pushed| - 1];
      } else if event.Notice? {
        PushNotice(event);
      } else {
        PushText(event);
      }
    }

    /** An event without text keeps its place behind buffered text. */
    method PushNotice(event: Event)
      requires Valid() && event.Notice? && pushed != [] && pushed[|pushed| - 1] == event
      requires Increasing(emittedFrom, |pushed| - 1) && Increasing(pendingFrom, |pushed| - 1)
      modifies this
      ensures Valid() && pushed == old(pushed)
      ensures View() == AfterNotice(old(View()), event, Settings())
      ensures old(emittedFrom) <= emittedFrom
    {
      hide Agree, Shaped, EmittedInOrder, BufferedInOrder, Increasing, AllBefore, StemsFrom, DistinctChannels, Emitted,
        ChannelOutput, ChannelInput, FlushTexts, TotalLength, BufferedChars, ScanText;
      var redacted := redactEvent(event);
      if |pending| == 0 {
        EmittedOne(emitted, emittedFrom, pushed, redacted, pending, pendingFrom, redactEvent);
        emitted, emittedFrom := emitted + [redacted], emittedFrom + [|pushed| - 1];
        return;
      }
      AgreeNotice(channels, pending, inputs, pendingChars, redacted);
      BufferedOne(pending, pendingFrom, pushed, Entry(redacted, None, 0), emittedFrom, redactEvent);
      pending, inputs, pendingFrom := pending + [Entry(redacted, None, 0)], inputs + [[]], pendingFrom + [|pushed| - 1];
      AgreeShaped(channels, pending, inputs, pendingChars);
      if |pending| > maxEvents {
        FlushPending(true);
        discarding := true;
      }
    }

    /** Text is buffered until every channel is outside JSON, or the limits are reached. */
    method PushText(event: Event)
      requires Valid() && IsText(event) && pushed != [] && pushed[|pushed| - 1] == event
      requires Increasing(emittedFrom, |pushed| - 1) && Increasing(pendingFrom, |pushed| - 1)
      modifies this
      ensures Valid() && pushed == old(pushed)
      ensures View() == AfterText(old(View()), event, Settings())
      ensures old(emittedFrom) <= emittedFrom
    {
      hide Agree, Shaped, EmittedInOrder, BufferedInOrder, Increasing, AllBefore, StemsFrom, DistinctChannels, Emitted,
        ChannelOutput, ChannelInput, FlushTexts, TotalLength, BufferedChars, ScanText;
      var key := KeyOf(event);
      var at := Find(channels, key);
      if at == |channels| {
        AgreeNewChannel(channels, pending, inputs, pendingChars, key);
        channels := channels + [Channel(key, [], 0, false, false)];
      }
      var scanned := Scan(channels[at], event.text);
      AgreeScanned(channels, pending, inputs, pendingChars, at, scanned);
      channels := channels[at := scanned];
      var boundary := AtBoundary(channels, event);
      AgreeShaped(channels, pending, inputs, pendingChars);
      if discarding {
        if boundary {
          EmptiedAgrees(channels, pending, inputs);
          channels := [];
          discarding := false;
        }
        return;
      }
      BufferText(event, at, boundary);
    }

    /** The second half of pushing text: buffer it, or give up on what is buffered. */
    method BufferText(event: Event, at: nat, boundary: bool)
      requires Valid() && !discarding && IsText(event) && pushed != [] && pushed[|pushed| - 1] == event
      requires Increasing(emittedFrom, |pushed| - 1) && Increasing(pendingFrom, |pushed| - 1)
      requires at < |channels| && channels[at].key == KeyOf(event)
      modifies this
      ensures Valid() && pushed == old(pushed)
      ensures View() == AfterBuffering(old(View()), event, at, boundary, Settings())
      ensures old(emittedFrom) <= emittedFrom
    {
      hide Agree, Shaped, EmittedInOrder, BufferedInOrder, Increasing, AllBefore, StemsFrom, DistinctChannels, Emitted,
        ChannelOutput, ChannelInput, FlushTexts, TotalLength, BufferedChars, ScanText;
      var entry := Entry(WithText(event, []), Some(KeyOf(event)), |event.text|);
      BufferedOne(pending, pendingFrom, pushed, entry, emittedFrom, redactEvent);
      AgreeText(channels, pending, inputs, pendingChars, at, entry, event.text);
      pending, inputs, pendingFrom := pending + [entry], inputs + [event.text], pendingFrom + [|pushed| - 1];
      var overflow := pendingChars + |event.text| > maxChars || |pending| > maxEvents;
      if overflow {
        FlushPending(true);
        discarding := !boundary;
        AgreeShaped(channels, pending, inputs, pendingChars);
        if boundary {
          EmptiedAgrees(channels, pending, inputs);
          channels := [];
        }
      } else {
        channels := channels[at := channels[at].(text := channels[at].text + event.text)];
        pendingChars := pendingChars + |event.text|;
        if boundary {
          AgreeShaped(channels, pending, inputs, pendingChars);
          FlushPending(false);
        }
      }
    }
  }

  // ---------------------------------------------------------------- the buffer's side

  /** The texts of a flush, put together per channel. */
  lemma FlushConserves(channels: seq<Channel>, batch: seq<Entry>, inputs: seq<Text>, omit: bool, redact: Text -> Text)
    requires Shaped(channels, batch, inputs)
    requires !omit ==> exists chars :: Agree(channels, batch, inputs, chars)
    ensures forall i :: 0 <= i < |batch| && batch[i].channel.Some? ==>
              var k := batch[i].channel.value;
              ChannelOutput(batch, |batch|, k, FlushTexts(channels, omit, redact), omit) ==
              if omit then MARKER else redact(ChannelInput(batch, inputs, k))
  {
    forall i | 0 <= i < |batch| && batch[i].channel.Some?
      ensures var k := batch[i].channel.value;
              ChannelOutput(batch, |batch|, k, FlushTexts(channels, omit, redact), omit) ==
              if omit then MARKER else redact(ChannelInput(batch, inputs, k))
    {
      var k := batch[i].channel.value;
      assert EntryFits(batch[i], inputs[i], channels);
      SlicesConserve(batch, k, FlushTexts(channels, omit, redact), omit);
    }
  }

  lemma EmptiedAgrees(channels: seq<Channel>, batch: seq<Entry>, inputs: seq<Text>)
    requires Shaped(channels, batch, inputs)
    ensures Agree(Emptied(channels), [], [], 0) && Agree([], [], [], 0)
  {
    EmptiedBuffered(Emptied(channels));
  }

  lemma AgreeNotice(channels: seq<Channel>, batch: seq<Entry>, inputs: seq<Text>, chars: nat, e: Event)
    requires Agree(channels, batch, inputs, chars)
    ensures Agree(channels, batch + [Entry(e, None, 0)], inputs + [[]], chars)
  {
    var entry := Entry(e, None, 0);
    TotalLengthAppend(batch, entry);
    forall i | 0 <= i < |channels|
      ensures channels[i].text == ChannelInput(batch + [entry], inputs + [[]], channels[i].key)
    {
      ChannelInputAppend(batch, inputs, entry, [], channels[i].key);
      assert channels[i].text + [] == channels[i].text;
    }
    forall i | 0 <= i < |batch| + 1 ensures EntryFits((batch + [entry])[i], (inputs + [[]])[i], channels) {
    }
  }

  lemma {:induction false} FindAppend(channels: seq<Channel>, c: Channel, k: Text)
    ensures Find(channels + [c], k) ==
            if Find(channels, k) < |channels| then Find(channels, k)
            else if c.key == k then |channels| else |channels| + 1
  {
    if channels == [] {
      assert [c][1..] == [];
    } else {
      assert (channels + [c])[1..] == channels[1..] + [c];
      FindAppend(channels[1..], c, k);
    }
  }

  lemma {:induction false} NoInput(batch: seq<Entry>, inputs: seq<Text>, k: Text)
    requires |inputs| == |batch| && forall i :: 0 <= i < |batch| ==> batch[i].channel != Some(k)
    ensures ChannelInput(batch, inputs, k) == []
    decreases |batch|
  {
    if batch != [] {
      NoInput(batch[..|batch| - 1], inputs[..|batch| - 1], k);
    }
  }

  lemma {:induction false} AgreeNewChannel(channels: seq<Channel>, batch: seq<Entry>, inputs: seq<Text>, chars: nat, key: Text)
    requires Agree(channels, batch, inputs, chars) && Find(channels, key) == |channels|
    ensures Agree(channels + [Channel(key, [], 0, false, false)], batch, inputs, chars)
  {
    var c := Channel(key, [], 0, false, false);
    BufferedAppend(channels, c);
    forall i | 0 <= i < |batch|
      ensures EntryFits(batch[i], inputs[i], channels + [c]) && batch[i].channel != Some(key)
    {
      assert EntryFits(batch[i], inputs[i], channels);
      if batch[i].channel.Some? {
        FindAppend(channels, c, batch[i].channel.value);
      }
    }
    NoInput(batch, inputs, key);
  }

  /** Keys stay where they are. */
  lemma {:induction false} FindSameKeys(channels: seq<Channel>, others: seq<Channel>, k: Text)
    requires |channels| == |others| && forall i :: 0 <= i < |channels| ==> channels[i].key == others[i].key
    ensures Find(channels, k) == Find(others, k)
  {
    if channels != [] {
      FindSameKeys(channels[1..], others[1..], k);
    }
  }

  lemma ShapedSameKeys(channels: seq<Channel>, others: seq<Channel>, batch: seq<Entry>, inputs: seq<Text>)
    requires Shaped(channels, batch, inputs)
    requires |channels| == |others| && forall i :: 0 <= i < |channels| ==> channels[i].key == others[i].key
    ensures Shaped(others, batch, inputs)
  {
    forall i | 0 <= i < |batch| ensures EntryFits(batch[i], inputs[i], others) {
      assert EntryFits(batch[i], inputs[i], channels);
      if batch[i].channel.Some? {
        FindSameKeys(channels, others, batch[i].channel.value);
      }
    }
  }

  lemma AgreeScanned(channels: seq<Channel>, batch: seq<Entry>, inputs: seq<Text>, chars: nat, at: nat, c: Channel)
    requires Agree(channels, batch, inputs, chars) && at < |channels|
    requires c.key == channels[at].key && c.text == channels[at].text
    ensures Agree(channels[at := c], batch, inputs, chars)
  {
    ShapedSameKeys(channels, channels[at := c], batch, inputs);
    BufferedUpdate(channels, at, c);
  }

  lemma AgreeText(
      channels: seq<Channel>, batch: seq<Entry>, inputs: seq<Text>, chars: nat, at: nat, entry: Entry, t: Text)
    requires Agree(channels, batch, inputs, chars) && at < |channels|
    requires entry.channel == Some(channels[at].key) && entry.length == |t|
    ensures Shaped(channels, batch + [entry], inputs + [t])
    ensures Agree(channels[at := channels[at].(text := channels[at].text + t)], batch + [entry], inputs + [t], chars + |t|)
  {
    var c := channels[at].(text := channels[at].text + t);
    var others := channels[at := c];
    FindAt(channels, at);
    assert Shaped(channels, batch + [entry], inputs + [t]);
    ShapedSameKeys(channels, others, batch + [entry], inputs + [t]);
    BufferedUpdate(channels, at, c);
    TotalLengthAppend(batch, entry);
    forall i | 0 <= i < |others|
      ensures others[i].text == ChannelInput(batch + [entry], inputs + [t], others[i].key)
    {
      ChannelInputAppend(batch, inputs, entry, t, channels[i].key);
      assert channels[i].text + [] == channels[i].text;
    }
  }

  lemma FindAt(channels: seq<Channel>, at: nat)
    requires at < |channels|
    ensures Find(channels, channels[at].key) < |channels|
  {
  }

  // ---------------------------------------------------------------- the order's side

  lemma NothingBuffered(from: seq<nat>, pushed: seq<Event>, redactEvent: Event -> Event)
    ensures BufferedInOrder([], [], pushed, redactEvent) && AllBefore(from, [])
  {
  }

  lemma AgreeShaped(channels: seq<Channel>, batch: seq<Entry>, inputs: seq<Text>, chars: nat)
    requires Agree(channels, batch, inputs, chars)
    ensures Shaped(channels, batch, inputs)
    ensures batch == [] ==> inputs == [] && chars == 0
  {
  }

  lemma {:induction false} EmittedStems(
      batch: seq<Entry>, from: seq<nat>, pushed: seq<Event>, texts: Text -> Text, omit: bool, redactEvent: Event -> Event)
    requires BufferedInOrder(batch, from, pushed, redactEvent)
    ensures EmittedInOrder(Emitted(batch, |batch|, texts, omit, redactEvent), from, pushed, redactEvent)
  {
    var out := Emitted(batch, |batch|, texts, omit, redactEvent);
    forall i | 0 <= i < |out| ensures StemsFrom(out[i], pushed[from[i]], redactEvent) {
      assert EntryOf(batch[i], pushed[from[i]], redactEvent);
      var t := Slice(batch, i, texts, omit);
      assert WithText(WithText(pushed[from[i]], []), t) == WithText(pushed[from[i]], t);
    }
  }

  lemma EmittedAppend(
      out: seq<Event>, from: seq<nat>, more: seq<Event>, moreFrom: seq<nat>, pushed: seq<Event>, redactEvent: Event -> Event)
    requires EmittedInOrder(out, from, pushed, redactEvent) && EmittedInOrder(more, moreFrom, pushed, redactEvent)
    requires AllBefore(from, moreFrom)
    ensures EmittedInOrder(out + more, from + moreFrom, pushed, redactEvent)
  {
  }

  lemma EmittedOne(
      out: seq<Event>, from: seq<nat>, pushed: seq<Event>, e: Event, batch: seq<Entry>, batchFrom: seq<nat>,
      redactEvent: Event -> Event)
    requires pushed != [] && EmittedInOrder(out, from, pushed, redactEvent) && Increasing(from, |pushed| - 1)
    requires e == redactEvent(pushed[|pushed| - 1])
    requires batch == [] && BufferedInOrder(batch, batchFrom, pushed, redactEvent)
    ensures EmittedInOrder(out + [e], from + [|pushed| - 1], pushed, redactEvent)
    ensures AllBefore(from + [|pushed| - 1], batchFrom)
  {
  }

  lemma BufferedOne(
      batch: seq<Entry>, from: seq<nat>, pushed: seq<Event>, entry: Entry, before: seq<nat>, redactEvent: Event -> Event)
    requires pushed != [] && BufferedInOrder(batch, from, pushed, redactEvent) && Increasing(from, |pushed| - 1)
    requires EntryOf(entry, pushed[|pushed| - 1], redactEvent)
    requires AllBefore(before, from) && Increasing(before, |pushed| - 1)
    ensures BufferedInOrder(batch + [entry], from + [|pushed| - 1], pushed, redactEvent)
    ensures AllBefore(before, from + [|pushed| - 1])
  {
  }

  lemma PushedMore(
      out: seq<Event>, from: seq<nat>, batch: seq<Entry>, batchFrom: seq<nat>, pushed: seq<Event>, e: Event,
      redactEvent: Event -> Event)
    requires EmittedInOrder(out, from, pushed, redactEvent) && BufferedInOrder(batch, batchFrom, pushed, redactEvent)
    requires AllBefore(from, batchFrom)
    ensures EmittedInOrder(out, from, pushed + [e], redactEvent)
    ensures BufferedInOrder(batch, batchFrom, pushed + [e], redactEvent)
    ensures Increasing(from + batchFrom, |pushed|)
    ensures Increasing(from, |pushed|) && Increasing(batchFrom, |pushed|)
  {
  }

  // ---------------------------------------------------------------- every run

  /** The limits hold, and the counter is what is buffered, counted either way. */
  predicate Bounded(s: State, c: Config) {
    && |s.pending| <= c.maxEvents && s.pendingChars <= c.maxChars
    && s.pendingChars == TotalLength(s.pending) == BufferedChars(s.channels)
    && (s.discarding ==> s.pending == [])
  }

  lemma FlushedBounded(s: State, omit: bool, c: Config)
    ensures Bounded(Flushed(s, omit, c), c)
  {
    EmptiedBuffered(Emptied(s.channels));
  }

  lemma ScannedBuffered(channels: seq<Channel>, e: Event)
    requires IsText(e)
    ensures BufferedChars(Scanned(channels, e)) == BufferedChars(channels)
  {
    var at, created := Find(channels, KeyOf(e)), Channel(KeyOf(e), [], 0, false, false);
    BufferedAppend(channels, created);
    var known := if at == |channels| then channels + [created] else channels;
    ScanTextAppend(known[at], e.text, 0);
    BufferedUpdate(known, at, ScanText(known[at], e.text));
  }

  lemma {:induction false} PushBounded(s: State, e: Event, c: Config)
    requires Bounded(s, c)
    ensures Bounded(AfterPush(s, e, c), c)
  {
    hide Emitted, Emptied;
    if e.Terminal? {
      FlushedBounded(s, false, c);
    } else if e.Notice? {
      var t := s.(pending := s.pending + [Entry(c.redactEvent(e), None, 0)]);
      TotalLengthAppend(s.pending, Entry(c.redactEvent(e), None, 0));
      FlushedBounded(t, true, c);
    } else {
      ScannedBuffered(s.channels, e);
      TextBounded(s.(channels := Scanned(s.channels, e)), e, Find(s.channels, KeyOf(e)), c);
    }
  }

  lemma TextBounded(s: State, e: Event, at: nat, c: Config)
    requires Bounded(s, c) && IsText(e) && at < |s.channels|
    ensures s.discarding || Bounded(AfterBuffering(s, e, at, AtBoundary(s.channels, e), c), c)
  {
    hide Emitted, Emptied;
    var entry := Entry(WithText(e, []), Some(KeyOf(e)), |e.text|);
    var t := s.(pending := s.pending + [entry]);
    TotalLengthAppend(s.pending, entry);
    FlushedBounded(t, true, c);
    var wider := s.channels[at].(text := s.channels[at].text + e.text);
    BufferedUpdate(s.channels, at, wider);
    FlushedBounded(t.(channels := s.channels[at := wider], pendingChars := s.pendingChars + |e.text|), false, c);
  }

  function RunAll(events: seq<Event>, c: Config): State {
    if events == [] then State([], [], 0, false, [])
    else AfterPush(RunAll(events[..|events| - 1], c), events[|events| - 1], c)
  }

  /** Whatever is pushed, the buffer stays within its limits and its counter is right. */
  lemma {:induction false} RunBounded(events: seq<Event>, c: Config)
    ensures Bounded(RunAll(events, c), c)
  {
    if events != [] {
      RunBounded(events[..|events| - 1], c);
      PushBounded(RunAll(events[..|events| - 1], c), events[|events| - 1], c);
    }
  }
}
