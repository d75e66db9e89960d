/**
 When buffered text may leave (packages/core/src/redacted-agent-stream.ts).
 */
module RedactedBoundary {
  import opened Prelude
  import opened Utf16
  import opened AgentJson
  import opened RedactedSlices
  import opened RedactedStream

  // ---------------------------------------------------------------- text that is complete

  function Opens(t: Text): nat {
    if t == [] then 0
    else Opens(t[..|t| - 1]) + if t[|t| - 1] == 0x7B || t[|t| - 1] == 0x5B then 1 else 0
  }

  function Closes(t: Text): nat {
    if t == [] then 0
    else Closes(t[..|t| - 1]) + if t[|t| - 1] == 0x7D || t[|t| - 1] == 0x5D then 1 else 0
  }

  /** No ending of the text opens more brackets than it closes. */
  predicate Unopened(t: Text) {
    forall k :: 0 <= k <= |t| ==> Opens(t[k..]) <= Closes(t[k..])
  }

  /** It ends outside string literals, and outside them no bracket is open. */
  predicate Complete(t: Text) {
    AgentJson.Scan(Outside, t) == Outside && Unopened(OutsideText(Outside, t))
  }

  // ---------------------------------------------------------------- what a channel received

  /** Standard output, standard error and assistant text of an invocation are separate. */
  predicate In(e: Event, k: Text) {
    || (e.Raw? && k == e.invocationId + [0x3A] + e.source)
    || (e.Assistant? && k == e.invocationId + [0x3A] + Lit("assistant"))
  }

  predicate EndsLine(t: Text) {
    t != [] && t[|t| - 1] == 0x0A
  }

  /** What the channel received since it was last cleared, before the last event is judged. */
  ghost function Received(events: seq<Event>, k: Text): Text
    requires events != []
    decreases |events|, 0
  {
    Heard(events[..|events| - 1], k) + if In(events[|events| - 1], k) then events[|events| - 1].text else []
  }

  ghost predicate AllComplete(events: seq<Event>)
    requires events != []
    decreases |events|, 1
  {
    forall k :: Complete(Received(events, k))
  }

  /** The last event is text that ends a line or a message, and what every channel received is complete. */
  ghost predicate Completed(events: seq<Event>)
    requires events != []
    decreases |events|, 2
  {
    var e := events[|events| - 1];
    && (e.Assistant? || (e.Raw? && EndsLine(e.text)))
    && AllComplete(events)
  }

  /** What the channel received since it was last cleared: by the end of the run, or by a completed event. */
  ghost function Heard(events: seq<Event>, k: Text): Text
    decreases |events|, 3
  {
    if events == [] then []
    else
      var e := events[|events| - 1];
      if e.Terminal? then []
      else if e.Notice? then Heard(events[..|events| - 1], k)
      else if Completed(events) then []
      else Received(events, k)
  }

  // ---------------------------------------------------------------- scanning

  const FRESH: Channel := Channel([], [], 0, false, false)

  /** Where nesting and quoting stand. */
  predicate SamePlace(a: Channel, b: Channel) {
    a.depth == b.depth && a.quoted == b.quoted && a.escaped == b.escaped
  }

  lemma {:induction false} ScanAlike(a: Channel, b: Channel, t: Text)
    requires SamePlace(a, b)
    ensures SamePlace(ScanText(a, t), ScanText(b, t))
    decreases |t|
  {
    if t != [] {
      ScanAlike(ScanOne(a, t[0]), ScanOne(b, t[0]), t[1..]);
    }
  }

  lemma {:induction false} ScanTwice(c: Channel, a: Text, b: Text)
    ensures ScanText(c, a + b) == ScanText(ScanText(c, a), b)
    decreases |a|
  {
    if a == [] {
      assert a + b == b;
    } else {
      assert (a + b)[1..] == a[1..] + b;
      ScanTwice(ScanOne(c, a[0]), a[1..], b);
    }
  }

  /** The most that some ending opens beyond what it closes. */
  ghost predicate IsDepth(t: Text, d: nat) {
    && (exists k :: 0 <= k <= |t| && Opens(t[k..]) - Closes(t[k..]) == d)
    && forall k :: 0 <= k <= |t| ==> Opens(t[k..]) - Closes(t[k..]) <= d
  }

  lemma EndingMore(t: Text, u: Unit, k: nat)
    requires k <= |t|
    ensures (t + [u])[k..] == t[k..] + [u]
    ensures Opens((t + [u])[k..]) == Opens(t[k..]) + if u == 0x7B || u == 0x5B then 1 else 0
    ensures Closes((t + [u])[k..]) == Closes(t[k..]) + if u == 0x7D || u == 0x5D then 1 else 0
  {
    assert (t + [u])[k..] == t[k..] + [u];
    assert (t[k..] + [u])[..|t| - k] == t[k..];
  }

  lemma DepthMore(t: Text, d: nat, u: Unit)
    requires IsDepth(t, d)
    ensures var more := if u == 0x7B || u == 0x5B then d + 1 else if u == 0x7D || u == 0x5D then (if d > 0 then d - 1 else 0) else d;
            IsDepth(t + [u], more)
  {
    hide Opens, Closes;
    var all := t + [u];
    forall k | 0 <= k <= |t|
      ensures Opens(all[k..]) == Opens(t[k..]) + (if u == 0x7B || u == 0x5B then 1 else 0)
      ensures Closes(all[k..]) == Closes(t[k..]) + (if u == 0x7D || u == 0x5D then 1 else 0)
    {
      EndingMore(t, u, k);
    }
    NothingOpen();
    assert all[|all|..] == [];
    var k :| 0 <= k <= |t| && Opens(t[k..]) - Closes(t[k..]) == d;
    assert 0 <= k <= |all|;
  }

  lemma NothingOpen()
    ensures Opens([]) == 0 && Closes([]) == 0
  {
  }

  lemma OutsideMore(t: Text, u: Unit)
    ensures AgentJson.Scan(Outside, t + [u]) == Next(AgentJson.Scan(Outside, t), u)
    ensures OutsideText(Outside, t + [u]) == OutsideText(Outside, t) + if AgentJson.Scan(Outside, t) == Outside then [u] else []
  {
    ScanConcat(Outside, t, [u]);
    OutsideJoined(Outside, t, [u]);
    assert [u][1..] == [];
  }

  lemma {:induction false} OutsideJoined(m: Mode, a: Text, b: Text)
    ensures OutsideText(m, a + b) == OutsideText(m, a) + OutsideText(AgentJson.Scan(m, a), b)
    decreases |a|
  {
    if a == [] {
      assert a + b == b;
    } else {
      assert (a + b)[1..] == a[1..] + b;
      OutsideJoined(Next(m, a[0]), a[1..], b);
    }
  }

  /** The channel's counters say where the text stands relative to literals and brackets. */
  lemma {:induction false} ScanExact(t: Text)
    ensures var c := ScanText(FRESH, t);
            && (c.quoted <==> AgentJson.Scan(Outside, t) != Outside)
            && (c.escaped <==> AgentJson.Scan(Outside, t) == Escaped)
            && IsDepth(OutsideText(Outside, t), c.depth)
    decreases |t|
  {
    hide IsDepth;
    if t == [] {
      NoDepth();
    } else {
      var n := |t| - 1;
      var front, u := t[..n], t[n];
      assert t == front + [u];
      ScanExact(front);
      ScanTextAppend(FRESH, front, u);
      OutsideMore(front, u);
      var out := OutsideText(Outside, front);
      DepthMore(out, ScanText(FRESH, front).depth, u);
      assert out + [] == out;
    }
  }

  lemma NoDepth()
    ensures IsDepth([], 0)
  {
    var none: Text := [];
    assert none[0..] == none;
  }

  lemma SettledExact(t: Text)
    ensures var c := ScanText(FRESH, t); (!c.quoted && c.depth == 0) <==> Complete(t)
  {
    ScanExact(t);
    var out := OutsideText(Outside, t);
    if Unopened(out) && AgentJson.Scan(Outside, t) == Outside {
      var d := ScanText(FRESH, t).depth;
      var k :| 0 <= k <= |out| && Opens(out[k..]) - Closes(out[k..]) == d;
    }
  }

  // ---------------------------------------------------------------- channels along a run

  /** The channel stands where the text it received leaves it; one that is not kept received none. */
  predicate Hears(channels: seq<Channel>, k: Text, t: Text) {
    var i := Find(channels, k);
    if i == |channels| then t == [] else SamePlace(channels[i], ScanText(FRESH, t))
  }

  lemma {:induction false} FindOnly(channels: seq<Channel>, i: nat)
    requires DistinctChannels(channels) && i < |channels|
    ensures Find(channels, channels[i].key) == i
  {
  }

  lemma KeyIn(e: Event, k: Text)
    requires IsText(e)
    ensures In(e, k) <==> k == KeyOf(e)
  {
  }

  /** Scanning an event moves its channel only. */
  lemma ScannedHears(channels: seq<Channel>, e: Event, k: Text, t: Text)
    requires IsText(e) && DistinctChannels(channels) && Hears(channels, k, t)
    ensures DistinctChannels(Scanned(channels, e))
    ensures Hears(Scanned(channels, e), k, t + if In(e, k) then e.text else [])
  {
    KeyIn(e, k);
    var at := Find(channels, KeyOf(e));
    var known := if at == |channels| then channels + [Channel(KeyOf(e), [], 0, false, false)] else channels;
    var scanned := Scanned(channels, e);
    ScanKeeps(known[at], e.text);
    assert forall i :: 0 <= i < |known| ==> scanned[i].key == known[i].key;
    assert DistinctChannels(scanned);
    hide ScanText;
    if In(e, k) {
      FindOnly(scanned, at);
      ScanTwice(FRESH, t, e.text);
      if at == |channels| {
        assert t == [];
        ScanNothing();
        ScanAlike(known[at], FRESH, e.text);
        assert [] + e.text == e.text;
      } else {
        ScanAlike(known[at], ScanText(FRESH, t), e.text);
      }
    } else {
      assert t + [] == t;
      var i := Find(channels, k);
      if i < |channels| {
        assert scanned[i] == channels[i];
        FindOnly(scanned, i);
      }
    }
  }

  lemma ScanNothing()
    ensures ScanText(FRESH, []) == FRESH
  {
  }

  lemma {:induction false} ScanKeeps(c: Channel, t: Text)
    ensures ScanText(c, t).key == c.key && ScanText(c, t).text == c.text
    decreases |t|
  {
    if t != [] {
      ScanKeeps(ScanOne(c, t[0]), t[1..]);
    }
  }

  lemma HeardComplete(channels: seq<Channel>, k: Text, t: Text)
    requires Hears(channels, k, t)
    ensures var i := Find(channels, k);
            Complete(t) <==> (i < |channels| ==> !channels[i].quoted && channels[i].depth == 0)
  {
    hide ScanText, Complete;
    SettledExact(t);
    NothingComplete();
  }

  /** All channels are settled exactly if all they received is complete. */
  lemma SettledChannels(channels: seq<Channel>, events: seq<Event>)
    requires events != [] && DistinctChannels(channels) && forall k :: Hears(channels, k, Received(events, k))
    ensures Settled(channels) <==> AllComplete(events)
  {
    hide Hears, Complete;
    if Settled(channels) {
      forall k
        ensures Complete(Received(events, k))
      {
        HeardComplete(channels, k, Received(events, k));
      }
    } else {
      var i :| 0 <= i < |channels| && (channels[i].quoted || channels[i].depth != 0);
      var k := channels[i].key;
      FindOnly(channels, i);
      HeardComplete(channels, k, Received(events, k));
      assert !Complete(Received(events, k));
    }
  }

  lemma NothingComplete()
    ensures Complete([])
  {
    SettledExact([]);
  }

  // ---------------------------------------------------------------- every push

  /** Channels are distinct and each stands where the text it received leaves it. */
  ghost predicate AllHear(channels: seq<Channel>, events: seq<Event>) {
    DistinctChannels(channels) && forall k :: Hears(channels, k, Heard(events, k))
  }

  /** After scanning a text event the channels stand where what they received leaves them, and so the boundary is right. */
  lemma BoundaryExact(channels: seq<Channel>, events: seq<Event>, e: Event)
    requires IsText(e) && AllHear(channels, events)
    ensures var more := events + [e];
            && DistinctChannels(Scanned(channels, e))
            && (forall k :: Hears(Scanned(channels, e), k, Received(more, k)))
            && (AtBoundary(Scanned(channels, e), e) <==> Completed(more))
  {
    hide Hears, AllComplete, Settled, Scanned, Heard;
    var more := events + [e];
    assert more[..|more| - 1] == events;
    forall k
      ensures Hears(Scanned(channels, e), k, Received(more, k)) && DistinctChannels(Scanned(channels, e))
    {
      ScannedHears(channels, e, k, Heard(events, k));
    }
    assert Hears(Scanned(channels, e), [], Received(more, []));
    SettledChannels(Scanned(channels, e), more);
  }

  /** Where the texts of the channels are is no concern of the scan. */
  lemma SamePlaces(before: seq<Channel>, after: seq<Channel>, k: Text, t: Text)
    requires Alike(after, before)
    requires DistinctChannels(before) && Hears(before, k, t)
    ensures DistinctChannels(after) && Hears(after, k, t)
  {
    hide ScanText;
    assert DistinctChannels(after);
    var i := Find(before, k);
    if i < |before| {
      FindOnly(after, i);
    }
  }

  lemma NoneHeard(k: Text)
    ensures DistinctChannels([]) && Hears([], k, [])
  {
  }

  /** Keys, nesting and quoting are the same. */
  predicate Alike(after: seq<Channel>, before: seq<Channel>) {
    |after| == |before| && forall i :: 0 <= i < |after| ==> after[i].key == before[i].key && SamePlace(after[i], before[i])
  }

  predicate Overflows(s: State, e: Event, c: Config)
    requires IsText(e)
  {
    s.pendingChars + |e.text| > c.maxChars || |s.pending| + 1 > c.maxEvents
  }

  /** What a text push does, in terms of the boundary. */
  lemma BufferingPush(s: State, e: Event, at: nat, boundary: bool, c: Config)
    requires IsText(e) && at < |s.channels|
    ensures var after := AfterBuffering(s, e, at, boundary, c);
            && (boundary ==> after.channels == [])
            && (!boundary ==> Alike(after.channels, s.channels))
            && (Overflows(s, e, c) ==> (after.discarding <==> !boundary))
            && (!Overflows(s, e, c) ==>
                  && after.discarding == s.discarding
                  && (if boundary then after.pending == [] && |after.emitted| == |s.emitted| + |s.pending| + 1
                      else after.emitted == s.emitted))
  {
    hide Emitted;
  }

  lemma TextPush(s: State, e: Event, c: Config)
    requires IsText(e)
    ensures var after := AfterText(s, e, c);
            var boundary := AtBoundary(Scanned(s.channels, e), e);
            && (boundary ==> after.channels == [])
            && (!boundary ==> Alike(after.channels, Scanned(s.channels, e)))
            && (s.discarding ==> after.emitted == s.emitted && (after.discarding <==> !boundary))
            && (!s.discarding && Overflows(s, e, c) ==> (after.discarding <==> !boundary))
            && (!s.discarding && !Overflows(s, e, c) ==>
                  && !after.discarding
                  && (if boundary then after.pending == [] && |after.emitted| == |s.emitted| + |s.pending| + 1
                      else after.emitted == s.emitted))
  {
    hide Settled, AfterBuffering, AtBoundary;
    var scanned := Scanned(s.channels, e);
    hide Scanned;
    if !s.discarding {
      BufferingPush(s.(channels := scanned), e, Find(s.channels, KeyOf(e)), AtBoundary(scanned, e), c);
    }
  }

  lemma {:induction false} RunHears(events: seq<Event>, c: Config)
    ensures AllHear(RunAll(events, c).channels, events)
  {
    if events == [] {
      NothingHeard(events);
    } else {
      hide AllHear, AfterText, Flushed, Heard;
      var n := |events| - 1;
      var front, e := events[..n], events[n];
      RunHears(front, c);
      var s := RunAll(front, c);
      assert events == front + [e];
      if e.Terminal? {
        NothingHeard(events);
      } else if e.Notice? {
        NoticeHears(s, front, e, c);
      } else {
        TextHears(s, front, e, c);
      }
    }
  }

  lemma NothingHeard(events: seq<Event>)
    requires events == [] || events[|events| - 1].Terminal?
    ensures AllHear([], events)
  {
    forall k ensures Hears([], k, Heard(events, k)) {
      NoneHeard(k);
    }
  }

  lemma NoticeHears(s: State, events: seq<Event>, e: Event, c: Config)
    requires e.Notice? && AllHear(s.channels, events)
    ensures AllHear(AfterNotice(s, e, c).channels, events + [e])
  {
    hide Hears;
    var more, after := events + [e], AfterNotice(s, e, c).channels;
    assert more[..|more| - 1] == events;
    assert Hears(s.channels, [], Heard(events, []));
    forall k ensures Hears(after, k, Heard(more, k)) && DistinctChannels(after) {
      SamePlaces(s.channels, after, k, Heard(events, k));
    }
    assert Hears(after, [], Heard(more, []));
  }

  lemma TextHears(s: State, events: seq<Event>, e: Event, c: Config)
    requires IsText(e) && AllHear(s.channels, events)
    ensures AllHear(AfterText(s, e, c).channels, events + [e])
  {
    hide Hears, AtBoundary, Scanned, Completed, Received, Alike, AfterText;
    var more := events + [e];
    BoundaryExact(s.channels, events, e);
    TextPush(s, e, c);
    var after, scanned := AfterText(s, e, c).channels, Scanned(s.channels, e);
    if AtBoundary(scanned, e) {
      forall k ensures Hears(after, k, Heard(more, k)) {
        NoneHeard(k);
      }
    } else {
      forall k ensures Hears(after, k, Heard(more, k)) && DistinctChannels(after) {
        SamePlaces(scanned, after, k, Received(more, k));
      }
      assert Hears(after, [], Heard(more, []));
    }
  }

  /**
   A text push that neither overflows nor discards emits exactly if it completes what every channel
   received; discarding ends, and an overflow is over at once, under the same condition.
   */
  lemma EmitsExact(events: seq<Event>, e: Event, c: Config)
    requires IsText(e)
    ensures var s, after := RunAll(events, c), RunAll(events + [e], c);
            && (!s.discarding && !Overflows(s, e, c) ==>
                  && !after.discarding
                  && (|after.emitted| > |s.emitted| <==> Completed(events + [e]))
                  && (Completed(events + [e]) ==> after.pending == [])
                  && (!Completed(events + [e]) ==> after.emitted == s.emitted))
            && (!s.discarding && Overflows(s, e, c) ==> (after.discarding <==> !Completed(events + [e])))
            && (s.discarding ==> after.emitted == s.emitted && (after.discarding <==> !Completed(events + [e])))
  {
    hide Completed, AtBoundary, Scanned, AfterText;
    var s := RunAll(events, c);
    assert (events + [e])[..|events|] == events;
    RunHears(events, c);
    BoundaryExact(s.channels, events, e);
    TextPush(s, e, c);
  }
}
