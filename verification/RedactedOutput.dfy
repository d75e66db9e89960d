/**
 What text leaves at each push (packages/core/src/redacted-agent-stream.ts).
 */
module RedactedOutput {
  import opened Prelude
  import opened Utf16
  import opened RedactedSlices
  import opened RedactedStream
  import opened RedactedBoundary

  // ---------------------------------------------------------------- what is held back and what is emitted

  /** Text and notices that exceed a limit. */
  predicate GivesUp(s: State, e: Event, c: Config) {
    && !s.discarding
    && (IsText(e) ==> Overflows(s, e, c))
    && (!IsText(e) ==> e.Notice? && s.pending != [] && |s.pending| + 1 > c.maxEvents)
  }

  /** What was pushed for the channel since its text last left, was given up, or was discarded. */
  ghost function Held(events: seq<Event>, k: Text, c: Config): Text {
    if events == [] then []
    else
      var before, e := events[..|events| - 1], events[|events| - 1];
      var s := RunAll(before, c);
      if e.Terminal? || GivesUp(s, e, c) then []
      else if e.Notice? then Held(before, k, c)
      else if s.discarding || Completed(events) then []
      else Held(before, k, c) + if In(e, k) then e.text else []
  }

  /** Each emitted event is a text event redacted, if one is given for it. */
  predicate EmittedAs(emitted: seq<Event>, out: seq<Option<Event>>, redactEvent: Event -> Event) {
    && |emitted| == |out|
    && forall i :: 0 <= i < |out| && out[i].Some? ==> IsText(out[i].value) && emitted[i] == redactEvent(out[i].value)
  }

  /** The texts of a channel, put together. */
  function Spoken(out: seq<Option<Event>>, k: Text): Text {
    if out == [] then []
    else
      var last := out[|out| - 1];
      Spoken(out[..|out| - 1], k) + if last.Some? && In(last.value, k) then last.value.text else []
  }

  /** An event of the channel is buffered. */
  predicate Waits(pending: seq<Entry>, k: Text) {
    exists i :: 0 <= i < |pending| && pending[i].channel == Some(k)
  }

  /** What a push makes leave of a channel: the redaction of what is held of it, one marker, or nothing. */
  ghost function Leaving(events: seq<Event>, e: Event, k: Text, c: Config): Text {
    var s := RunAll(events, c);
    if e.Terminal? then
      if Waits(s.pending, k) then c.redact(Held(events, k, c)) else []
    else if GivesUp(s, e, c) then
      if Waits(s.pending, k) || In(e, k) then MARKER else []
    else if e.Notice? || s.discarding || !Completed(events + [e]) then []
    else if In(e, k) then c.redact(Held(events, k, c) + e.text)
    else if Waits(s.pending, k) then c.redact(Held(events, k, c))
    else []
  }

  // ---------------------------------------------------------------- flushing

  predicate Tagged(pending: seq<Entry>) {
    forall i :: 0 <= i < |pending| && pending[i].channel.Some? ==>
      IsText(pending[i].event) && pending[i].channel == Some(KeyOf(pending[i].event))
  }

  predicate Has(channels: seq<Channel>, k: Text) {
    exists i :: 0 <= i < |channels| && channels[i].key == k
  }

  /** The channel holds the text; one that is not kept holds none. */
  predicate Keeps(channels: seq<Channel>, k: Text, t: Text) {
    && (forall i :: 0 <= i < |channels| && channels[i].key == k ==> channels[i].text == t)
    && (!Has(channels, k) ==> t == [])
  }

  predicate Kept(channels: seq<Channel>, pending: seq<Entry>) {
    forall i :: 0 <= i < |pending| && pending[i].channel.Some? ==> Has(channels, pending[i].channel.value)
  }

  lemma Found(channels: seq<Channel>, k: Text)
    ensures Has(channels, k) <==> Find(channels, k) < |channels|
  {
  }

  lemma FlushedText(channels: seq<Channel>, omit: bool, redact: Text -> Text, k: Text, t: Text)
    requires Keeps(channels, k, t) && Has(channels, k)
    ensures FlushText(channels, omit, redact, k) == if omit then MARKER else redact(t)
  {
    Found(channels, k);
  }

  lemma SpokenOne(out: seq<Option<Event>>, last: Option<Event>, k: Text)
    ensures Spoken(out + [last], k) == Spoken(out, k) + if last.Some? && In(last.value, k) then last.value.text else []
  {
    assert (out + [last])[..|out|] == out;
  }

  function OutOf(entry: Entry, slice: Text): Option<Event> {
    if entry.channel.None? then None else Some(WithText(entry.event, slice))
  }

  lemma EntrySpoken(out: seq<Option<Event>>, entry: Entry, slice: Text, k: Text)
    requires Tagged([entry])
    ensures Spoken(out + [OutOf(entry, slice)], k) == Spoken(out, k) + if entry.channel == Some(k) then slice else []
  {
    SpokenOne(out, OutOf(entry, slice), k);
    if entry.channel.Some? {
      assert [entry][0] == entry;
      KeyIn(WithText(entry.event, slice), k);
    }
  }

  lemma {:induction false} BatchSpoken(batch: seq<Entry>, n: nat, texts: Text -> Text, omit: bool, redactEvent: Event -> Event)
    returns (out: seq<Option<Event>>)
    requires n <= |batch| && Tagged(batch)
    ensures EmittedAs(Emitted(batch, n, texts, omit, redactEvent), out, redactEvent)
    ensures forall k :: Spoken(out, k) == ChannelOutput(batch, n, k, texts, omit)
  {
    out := [];
    if n > 0 {
      var front := BatchSpoken(batch, n - 1, texts, omit, redactEvent);
      var entry, slice := batch[n - 1], Slice(batch, n - 1, texts, omit);
      hide Slice, Spoken;
      out := front + [OutOf(entry, slice)];
      forall k ensures Spoken(out, k) == ChannelOutput(batch, n, k, texts, omit) {
        EntrySpoken(front, entry, slice, k);
      }
    }
  }

  lemma {:induction false} NoOutput(batch: seq<Entry>, n: nat, k: Text, texts: Text -> Text, omit: bool)
    requires n <= |batch| && !Waits(batch, k)
    ensures ChannelOutput(batch, n, k, texts, omit) == []
  {
    if n > 0 {
      NoOutput(batch, n - 1, k, texts, omit);
    }
  }

  /** A flush emits for every channel with a buffered event its redacted text, or one marker. */
  lemma FlushSpoken(s: State, omit: bool, c: Config) returns (out: seq<Option<Event>>)
    requires Tagged(s.pending) && Kept(s.channels, s.pending)
    ensures var after := Flushed(s, omit, c).emitted;
            s.emitted <= after && EmittedAs(after[|s.emitted|..], out, c.redactEvent)
    ensures forall k, t :: Keeps(s.channels, k, t) ==>
              Spoken(out, k) == if !Waits(s.pending, k) then [] else if omit then MARKER else c.redact(t)
  {
    var texts := FlushTexts(s.channels, omit, c.redact);
    out := BatchSpoken(s.pending, |s.pending|, texts, omit, c.redactEvent);
    assert Flushed(s, omit, c).emitted[|s.emitted|..] == Emitted(s.pending, |s.pending|, texts, omit, c.redactEvent);
    forall k, t | Keeps(s.channels, k, t)
      ensures Spoken(out, k) == if !Waits(s.pending, k) then [] else if omit then MARKER else c.redact(t)
    {
      if Waits(s.pending, k) {
        SlicesConserve(s.pending, k, texts, omit);
        FlushedText(s.channels, omit, c.redact, k, t);
      } else {
        NoOutput(s.pending, |s.pending|, k, texts, omit);
      }
    }
  }

  // ---------------------------------------------------------------- what every push keeps

  /** What is buffered is what is held. */
  ghost predicate Holds(s: State, events: seq<Event>, c: Config) {
    && DistinctChannels(s.channels) && Tagged(s.pending) && Kept(s.channels, s.pending)
    && (forall k :: Keeps(s.channels, k, Held(events, k, c)))
    && (forall k :: !Waits(s.pending, k) ==> Held(events, k, c) == [])
    && (s.discarding ==> s.pending == [])
  }

  lemma ScannedKeeps(channels: seq<Channel>, e: Event)
    requires IsText(e) && DistinctChannels(channels)
    ensures DistinctChannels(Scanned(channels, e)) && Has(Scanned(channels, e), KeyOf(e))
    ensures forall k :: Has(channels, k) ==> Has(Scanned(channels, e), k)
    ensures forall k, t :: Keeps(channels, k, t) ==> Keeps(Scanned(channels, e), k, t)
  {
    var at := Find(channels, KeyOf(e));
    var known := if at == |channels| then channels + [Channel(KeyOf(e), [], 0, false, false)] else channels;
    var scanned := Scanned(channels, e);
    ScanKeeps(known[at], e.text);
    assert forall i :: 0 <= i < |known| ==> scanned[i].key == known[i].key && scanned[i].text == known[i].text;
    hide ScanText;
    assert scanned[at].key == KeyOf(e);
    forall k | Has(channels, k) ensures Has(scanned, k) {
      var i :| 0 <= i < |channels| && channels[i].key == k;
      assert scanned[i].key == k;
    }
  }

  /** A flush leaves nothing buffered. */
  lemma FlushedKeeps(s: State, omit: bool, c: Config, k: Text)
    requires DistinctChannels(s.channels)
    ensures var f := Flushed(s, omit, c); DistinctChannels(f.channels) && f.pending == [] && Keeps(f.channels, k, [])
  {
  }

  /** What leaves at a push, and that what is buffered is still what is held. */
  ghost predicate Left(events: seq<Event>, e: Event, c: Config, out: seq<Option<Event>>) {
    var s, after := RunAll(events, c), RunAll(events + [e], c);
    && s.emitted <= after.emitted
    && EmittedAs(after.emitted[|s.emitted|..], out, c.redactEvent)
    && (forall k :: Spoken(out, k) == Leaving(events, e, k, c))
    && Holds(after, events + [e], c)
  }

  lemma RunMore(events: seq<Event>, e: Event, c: Config)
    ensures RunAll(events + [e], c) == AfterPush(RunAll(events, c), e, c)
    ensures (events + [e])[..|events + [e]| - 1] == events
  {
    assert (events + [e])[..|events|] == events;
  }

  lemma TerminalLeaves(events: seq<Event>, e: Event, c: Config) returns (out: seq<Option<Event>>)
    requires e.Terminal? && Holds(RunAll(events, c), events, c)
    ensures Left(events, e, c, out)
  {
    RunMore(events, e, c);
    var s, after := RunAll(events, c), RunAll(events + [e], c);
    hide RunAll;
    var flushed := FlushSpoken(s, false, c);
    out := flushed + [None];
    var f := FlushedAll(s, c).emitted;
    assert after.emitted[|s.emitted|..] == f[|s.emitted|..] + [c.redactEvent(e)];
    forall k ensures Spoken(out, k) == Leaving(events, e, k, c) {
      SpokenOne(flushed, None, k);
    }
    forall k ensures Keeps([], k, Held(events + [e], k, c)) {
    }
  }

  /** Nothing is buffered: a notice goes out at once. */
  lemma NoticePasses(events: seq<Event>, e: Event, c: Config)
    requires e.Notice? && Holds(RunAll(events, c), events, c) && RunAll(events, c).pending == []
    ensures Left(events, e, c, [None])
  {
    RunMore(events, e, c);
    hide RunAll;
    forall k ensures Spoken([None], k) == Leaving(events, e, k, c) && Held(events + [e], k, c) == Held(events, k, c) {
      var none: seq<Option<Event>> := [];
      SpokenOne(none, None, k);
      assert none + [None] == [None];
    }
  }

  lemma NoticeStays(events: seq<Event>, e: Event, c: Config)
    requires e.Notice? && Holds(RunAll(events, c), events, c)
    requires RunAll(events, c).pending != [] && !GivesUp(RunAll(events, c), e, c)
    ensures Left(events, e, c, [])
  {
    RunMore(events, e, c);
    var s := RunAll(events, c);
    hide RunAll, Keeps;
    WaitsMore(s.pending, Entry(c.redactEvent(e), None, 0));
    hide Waits;
    assert forall k :: Held(events + [e], k, c) == Held(events, k, c);
  }

  lemma NoticeGivesUp(events: seq<Event>, e: Event, c: Config) returns (out: seq<Option<Event>>)
    requires e.Notice? && Holds(RunAll(events, c), events, c) && GivesUp(RunAll(events, c), e, c)
    ensures Left(events, e, c, out)
  {
    RunMore(events, e, c);
    var s, more := RunAll(events, c), events + [e];
    hide RunAll;
    var t := s.(pending := s.pending + [Entry(c.redactEvent(e), None, 0)]);
    out := FlushSpoken(t, true, c);
    WaitsMore(s.pending, Entry(c.redactEvent(e), None, 0));
    hide Waits, Keeps, Flushed, Spoken;
    forall k ensures Spoken(out, k) == Leaving(events, e, k, c) {
      assert Keeps(t.channels, k, Held(events, k, c));
    }
    forall k ensures Keeps(Flushed(t, true, c).channels, k, Held(more, k, c)) {
      FlushedKeeps(t, true, c, k);
    }
    FlushedKeeps(t, true, c, []);
  }

  lemma WaitsMore(pending: seq<Entry>, entry: Entry)
    ensures forall k :: Waits(pending + [entry], k) <==> Waits(pending, k) || entry.channel == Some(k)
  {
    forall k ensures Waits(pending + [entry], k) <==> Waits(pending, k) || entry.channel == Some(k) {
      var all := pending + [entry];
      assert all[|pending|] == entry;
      if i :| 0 <= i < |pending| && pending[i].channel == Some(k) {
        assert all[i] == pending[i];
      }
    }
  }

  // ---------------------------------------------------------------- pushing text

  /** Scanning a text event leaves what is buffered alone. */
  lemma ScannedHolds(s: State, events: seq<Event>, e: Event, c: Config)
    requires IsText(e) && Holds(s, events, c)
    ensures var channels := Scanned(s.channels, e);
            && DistinctChannels(channels) && Kept(channels, s.pending) && Has(channels, KeyOf(e))
            && forall k :: Keeps(channels, k, Held(events, k, c))
  {
    hide Keeps, Has, Scanned, Held;
    ScannedKeeps(s.channels, e);
  }

  /** The entry of a text event. */
  function EntryFor(e: Event): Entry
    requires IsText(e)
  {
    Entry(WithText(e, []), Some(KeyOf(e)), |e.text|)
  }

  lemma EntryAdded(channels: seq<Channel>, pending: seq<Entry>, e: Event)
    requires IsText(e) && Tagged(pending) && Kept(channels, pending) && Has(channels, KeyOf(e))
    ensures Tagged(pending + [EntryFor(e)]) && Kept(channels, pending + [EntryFor(e)])
    ensures forall k :: Waits(pending + [EntryFor(e)], k) <==> Waits(pending, k) || In(e, k)
  {
    WaitsMore(pending, EntryFor(e));
    forall k ensures In(e, k) <==> EntryFor(e).channel == Some(k) {
      KeyIn(e, k);
    }
  }

  lemma DiscardLeaves(events: seq<Event>, e: Event, c: Config)
    requires IsText(e) && Holds(RunAll(events, c), events, c) && RunAll(events, c).discarding
    ensures Left(events, e, c, [])
  {
    RunMore(events, e, c);
    var s := RunAll(events, c);
    hide RunAll;
    ScannedHolds(s, events, e, c);
    hide Scanned, AtBoundary, Completed;
    forall k ensures Held(events, k, c) == [] && Held(events + [e], k, c) == [] && !Waits(s.pending, k) {
    }
    assert forall k :: Keeps([], k, []);
  }

  /** The state in which a text event is buffered: its channel is there and scanned. */
  function Arrived(s: State, e: Event, c: Config): State
    requires IsText(e)
  {
    s.(channels := Scanned(s.channels, e), pending := s.pending + [EntryFor(e)])
  }

  /** With its text. */
  function Buffered(s: State, e: Event, c: Config): State
    requires IsText(e)
  {
    var t, at := Arrived(s, e, c), Find(s.channels, KeyOf(e));
    t.(channels := t.channels[at := t.channels[at].(text := t.channels[at].text + e.text)], pendingChars := s.pendingChars + |e.text|)
  }

  lemma TextStep(s: State, e: Event, c: Config)
    requires IsText(e) && !s.discarding
    ensures var t, u, after := Flushed(Arrived(s, e, c), true, c), Buffered(s, e, c), AfterText(s, e, c);
            var boundary := AtBoundary(Scanned(s.channels, e), e);
            if GivesUp(s, e, c) then after == t.(discarding := !boundary, channels := if boundary then [] else t.channels)
            else after == if boundary then Flushed(u, false, c) else u
  {
    hide AtBoundary, Flushed;
  }

  lemma TextGivesUp(events: seq<Event>, e: Event, c: Config) returns (out: seq<Option<Event>>)
    requires IsText(e) && Holds(RunAll(events, c), events, c) && GivesUp(RunAll(events, c), e, c)
    ensures Left(events, e, c, out)
  {
    RunMore(events, e, c);
    var s := RunAll(events, c);
    TextStep(s, e, c);
    hide RunAll, AfterText, Holds, AtBoundary, Completed;
    GivenUpHolds(events, e, c);
    var t := Arrived(s, e, c);
    hide Flushed;
    out := GivenUpSpoken(s, events, e, c);
  }

  lemma GivenUpSpoken(s: State, events: seq<Event>, e: Event, c: Config) returns (out: seq<Option<Event>>)
    requires IsText(e) && Holds(s, events, c)
    ensures var after := Flushed(Arrived(s, e, c), true, c).emitted;
            s.emitted <= after && EmittedAs(after[|s.emitted|..], out, c.redactEvent)
    ensures forall k :: Spoken(out, k) == if Waits(s.pending, k) || In(e, k) then MARKER else []
  {
    ScannedHolds(s, events, e, c);
    var t := Arrived(s, e, c);
    EntryAdded(t.channels, s.pending, e);
    out := FlushSpoken(t, true, c);
    hide Waits, Keeps, Flushed, Spoken;
    forall k ensures Spoken(out, k) == if Waits(s.pending, k) || In(e, k) then MARKER else [] {
      assert Keeps(t.channels, k, Held(events, k, c));
    }
  }

  lemma GivenUpHolds(events: seq<Event>, e: Event, c: Config)
    requires IsText(e) && Holds(RunAll(events, c), events, c) && GivesUp(RunAll(events, c), e, c)
    ensures Holds(RunAll(events + [e], c), events + [e], c)
  {
    RunMore(events, e, c);
    var s, more, after := RunAll(events, c), events + [e], RunAll(events + [e], c);
    TextStep(s, e, c);
    var t := Arrived(s, e, c);
    ScannedKeeps(s.channels, e);
    FlushedKeeps(t, true, c, []);
    hide RunAll, AfterText, Scanned, AtBoundary, Completed, Has, Keeps, Flushed;
    forall k ensures Held(more, k, c) == [] && Keeps(after.channels, k, []) {
      FlushedKeeps(t, true, c, k);
      NoneKept(k);
    }
  }

  lemma NoneKept(k: Text)
    ensures Keeps([], k, [])
  {
  }

  lemma BufferedKeeps(s: State, e: Event, c: Config, k: Text, t: Text)
    requires IsText(e) && DistinctChannels(s.channels) && Keeps(s.channels, k, t)
    ensures Keeps(Buffered(s, e, c).channels, k, t + if In(e, k) then e.text else [])
    ensures DistinctChannels(Buffered(s, e, c).channels)
    ensures Has(Scanned(s.channels, e), k) <==> Has(Buffered(s, e, c).channels, k)
  {
    ScannedKeeps(s.channels, e);
    KeyIn(e, k);
    var scanned, more := Scanned(s.channels, e), Buffered(s, e, c).channels;
    var at := Find(s.channels, KeyOf(e));
    hide Scanned;
    assert forall i :: 0 <= i < |scanned| ==> more[i].key == scanned[i].key;
    assert scanned[at].key == KeyOf(e);
  }

  /** A text event that completes what the channels received: everything goes out. */
  lemma TextCompletes(events: seq<Event>, e: Event, c: Config) returns (out: seq<Option<Event>>)
    requires IsText(e) && Holds(RunAll(events, c), events, c) && Completed(events + [e])
    requires !RunAll(events, c).discarding && !GivesUp(RunAll(events, c), e, c)
    ensures Left(events, e, c, out)
  {
    RunMore(events, e, c);
    RunHears(events, c);
    var s, more := RunAll(events, c), events + [e];
    BoundaryExact(s.channels, events, e);
    TextStep(s, e, c);
    hide RunAll, AfterText, Holds, AtBoundary, Completed, Flushed, Hears;
    out := CompletedSpoken(s, events, e, c);
    BufferedFlushed(s, events, e, c);
  }

  lemma CompletedSpoken(s: State, events: seq<Event>, e: Event, c: Config) returns (out: seq<Option<Event>>)
    requires IsText(e) && Holds(s, events, c)
    ensures var after := Flushed(Buffered(s, e, c), false, c).emitted;
            s.emitted <= after && EmittedAs(after[|s.emitted|..], out, c.redactEvent)
    ensures forall k :: Spoken(out, k) ==
              if In(e, k) then c.redact(Held(events, k, c) + e.text)
              else if Waits(s.pending, k) then c.redact(Held(events, k, c)) else []
  {
    BufferedHolds(s, events, e, c);
    var u := Buffered(s, e, c);
    out := FlushSpoken(u, false, c);
    hide Waits, Keeps, Flushed, Spoken, Buffered;
    forall k
      ensures Spoken(out, k) ==
              if In(e, k) then c.redact(Held(events, k, c) + e.text)
              else if Waits(s.pending, k) then c.redact(Held(events, k, c)) else []
    {
      assert Keeps(u.channels, k, Held(events, k, c) + if In(e, k) then e.text else []);
      assert Held(events, k, c) + [] == Held(events, k, c);
    }
  }

  /** Buffering a text event adds its text to what its channel holds. */
  lemma BufferedHolds(s: State, events: seq<Event>, e: Event, c: Config)
    requires IsText(e) && Holds(s, events, c)
    ensures var u := Buffered(s, e, c);
            && Tagged(u.pending) && Kept(u.channels, u.pending) && DistinctChannels(u.channels)
            && (forall k :: Keeps(u.channels, k, Held(events, k, c) + if In(e, k) then e.text else []))
            && forall k :: Waits(u.pending, k) <==> Waits(s.pending, k) || In(e, k)
  {
    ScannedHolds(s, events, e, c);
    var u := Buffered(s, e, c);
    EntryAdded(Scanned(s.channels, e), s.pending, e);
    hide Waits, Keeps, Has, Scanned;
    forall k
      ensures Keeps(u.channels, k, Held(events, k, c) + if In(e, k) then e.text else [])
      ensures DistinctChannels(u.channels) && (Has(Scanned(s.channels, e), k) <==> Has(u.channels, k))
    {
      BufferedKeeps(s, e, c, k, Held(events, k, c));
    }
    assert Has(Scanned(s.channels, e), []) <==> Has(u.channels, []);
  }

  lemma BufferedFlushed(s: State, events: seq<Event>, e: Event, c: Config)
    requires IsText(e) && Holds(s, events, c) && s == RunAll(events, c) && !s.discarding && !GivesUp(s, e, c) && Completed(events + [e])
    ensures Holds(Flushed(Buffered(s, e, c), false, c), events + [e], c)
  {
    RunMore(events, e, c);
    var u, more := Buffered(s, e, c), events + [e];
    BufferedHolds(s, events, e, c);
    FlushedKeeps(u, false, c, []);
    hide RunAll, Completed, Has, Keeps, Buffered;
    forall k ensures Held(more, k, c) == [] && Keeps(Flushed(u, false, c).channels, k, []) {
      FlushedKeeps(u, false, c, k);
    }
    assert !s.discarding;
  }

  /** Any other text event stays. */
  lemma TextStays(events: seq<Event>, e: Event, c: Config)
    requires IsText(e) && Holds(RunAll(events, c), events, c) && !Completed(events + [e])
    requires !RunAll(events, c).discarding && !GivesUp(RunAll(events, c), e, c)
    ensures Left(events, e, c, [])
  {
    RunMore(events, e, c);
    RunHears(events, c);
    var s, more := RunAll(events, c), events + [e];
    BoundaryExact(s.channels, events, e);
    TextStep(s, e, c);
    BufferedHolds(s, events, e, c);
    hide RunAll, AfterText, AtBoundary, Completed, Flushed, Hears, Waits, Keeps, Has;
    forall k ensures Held(more, k, c) == Held(events, k, c) + if In(e, k) then e.text else [] {
    }
    hide Held, Buffered;
  }

  // ---------------------------------------------------------------- every push of every run

  /** What is buffered after any pushes is what is held. */
  lemma {:induction false} RunHolds(events: seq<Event>, c: Config)
    ensures Holds(RunAll(events, c), events, c)
  {
    if events == [] {
      NothingHeld(c);
    } else {
      hide Holds, RunAll, Leaving, Spoken, EmittedAs;
      var n := |events| - 1;
      RunHolds(events[..n], c);
      var out := PushLeaves(events[..n], events[n], c);
      assert events[..n] + [events[n]] == events;
    }
  }

  lemma NothingHeld(c: Config)
    ensures Holds(RunAll([], c), [], c)
  {
  }

  lemma PushLeaves(events: seq<Event>, e: Event, c: Config) returns (out: seq<Option<Event>>)
    requires Holds(RunAll(events, c), events, c)
    ensures Left(events, e, c, out)
  {
    hide Left, Holds, Completed;
    var s := RunAll(events, c);
    hide RunAll;
    if e.Terminal? {
      out := TerminalLeaves(events, e, c);
    } else if GivesUp(s, e, c) {
      if IsText(e) { out := TextGivesUp(events, e, c); } else { out := NoticeGivesUp(events, e, c); }
    } else if e.Notice? {
      if s.pending == [] {
        out := [None];
        NoticePasses(events, e, c);
      } else {
        out := [];
        NoticeStays(events, e, c);
      }
    } else if s.discarding {
      out := [];
      DiscardLeaves(events, e, c);
    } else if Completed(events + [e]) {
      out := TextCompletes(events, e, c);
    } else {
      out := [];
      TextStays(events, e, c);
    }
  }

  /**
   At every push of every run, what is emitted for a channel is the redaction of everything that was
   pushed for it since its text last left, as one text; or one marker where a limit is exceeded; or
   nothing.
   */
  lemma LeavesExact(events: seq<Event>, e: Event, c: Config) returns (out: seq<Option<Event>>)
    ensures var s, after := RunAll(events, c), RunAll(events + [e], c);
            && s.emitted <= after.emitted
            && EmittedAs(after.emitted[|s.emitted|..], out, c.redactEvent)
            && forall k :: Spoken(out, k) == Leaving(events, e, k, c)
    ensures forall k :: !Waits(RunAll(events, c).pending, k) ==> Held(events, k, c) == []
  {
    RunHolds(events, c);
    out := PushLeaves(events, e, c);
  }

  /** At the end everything that is held goes out, redacted. */
  lemma FlushLeaves(events: seq<Event>, c: Config) returns (out: seq<Option<Event>>)
    ensures var s, after := RunAll(events, c), FlushedAll(RunAll(events, c), c);
            && after.pending == [] && after.channels == [] && !after.discarding
            && s.emitted <= after.emitted
            && EmittedAs(after.emitted[|s.emitted|..], out, c.redactEvent)
            && forall k :: Spoken(out, k) == if Waits(s.pending, k) then c.redact(Held(events, k, c)) else []
  {
    RunHolds(events, c);
    out := FlushSpoken(RunAll(events, c), false, c);
  }
}
