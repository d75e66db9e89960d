/**
 The queue in front of the model process (packages/agent/src/agent-invocation-queue.ts).
 */
module InvocationQueue {
  import opened Prelude
  import opened Utf16

  // Entries are objects in the program; here a serial number stands for their identity, so
  // invocation identifiers may repeat. The history records what happened to every entry.

  datatype Entry = Entry(serial: nat, id: Text, aborted: bool, begun: bool)

  datatype Lane = Lane(key: Text, inflight: Option<Entry>, waiting: seq<Entry>)

  datatype Kind = Enqueued | Started | Dropped | Settled

  datatype Happening = Happening(kind: Kind, key: Text, serial: nat)

  /** `lanes` is in insertion order, as the program's map is. */
  datatype State = State(lanes: seq<Lane>, next: nat, history: seq<Happening>)

  const PROVIDER: Text := Lit("codex")

  /** normalizeLaneKey, for the only provider there is; an empty key counts as none. */
  function LaneKey(suffix: Text): Text {
    if suffix == [] then PROVIDER else PROVIDER + [0x3A] + suffix
  }

  /** Different lane keys are different lanes, and none is the default one but no key at all. */
  lemma LaneKeysDistinct(a: Text, b: Text)
    ensures LaneKey(a) == LaneKey(b) <==> a == b
  {
    if a != [] {
      assert LaneKey(a)[|PROVIDER| + 1..] == a;
    }
    if b != [] {
      assert LaneKey(b)[|PROVIDER| + 1..] == b;
    }
  }

  const INITIAL: State := State([Lane(PROVIDER, None, [])], 0, [])

  // ---------------------------------------------------------------- lanes

  /** Position of the lane, or the number of lanes. */
  function Find(lanes: seq<Lane>, key: Text): (i: nat)
    ensures i <= |lanes|
    ensures i < |lanes| ==> lanes[i].key == key
    ensures i == |lanes| ==> forall j :: 0 <= j < i ==> lanes[j].key != key
  {
    if lanes == [] || lanes[0].key == key then 0 else 1 + Find(lanes[1..], key)
  }

  predicate HasId(entries: seq<Entry>, id: Text) {
    exists i :: 0 <= i < |entries| && entries[i].id == id
  }

  function FindId(entries: seq<Entry>, id: Text): (i: nat)
    ensures i <= |entries|
    ensures i < |entries| <==> HasId(entries, id)
    ensures i < |entries| ==> entries[i].id == id
    ensures forall j :: 0 <= j < i ==> entries[j].id != id
  {
    if entries == [] then 0
    else if entries[0].id == id then assert HasId(entries, id); 0
    else
      assert forall j :: 0 < j < |entries| ==> entries[j] == entries[1..][j - 1];
      1 + FindId(entries[1..], id)
  }

  predicate Holds(lane: Lane, id: Text) {
    (lane.inflight.Some? && lane.inflight.value.id == id) || HasId(lane.waiting, id)
  }

  /** The first lane holding the identifier, or the number of lanes. */
  function FindHolder(lanes: seq<Lane>, id: Text): (i: nat)
    ensures i <= |lanes|
    ensures i < |lanes| ==> Holds(lanes[i], id)
    ensures forall j :: 0 <= j < i ==> !Holds(lanes[j], id)
  {
    if lanes == [] || Holds(lanes[0], id) then 0 else 1 + FindHolder(lanes[1..], id)
  }

  // ---------------------------------------------------------------- steps

  function Record(s: State, kind: Kind, key: Text, serial: nat): State {
    s.(history := s.history + [Happening(kind, key, serial)])
  }

  function PrunedAt(s: State, i: nat): State
    requires i < |s.lanes|
  {
    var lane := s.lanes[i];
    if lane.key == PROVIDER || lane.inflight.Some? || lane.waiting != [] then s
    else s.(lanes := s.lanes[..i] + s.lanes[i + 1..])
  }

  function DrainedAt(s: State, i: nat): State
    requires i < |s.lanes|
  {
    var lane := s.lanes[i];
    if lane.inflight.Some? then s
    else if lane.waiting == [] then PrunedAt(s, i)
    else
      Record(s.(lanes := s.lanes[i := lane.(inflight := Some(lane.waiting[0]), waiting := lane.waiting[1..])]),
        Started, lane.key, lane.waiting[0].serial)
  }

  function WithLane(s: State, key: Text): State {
    if Find(s.lanes, key) < |s.lanes| then s else s.(lanes := s.lanes + [Lane(key, None, [])])
  }

  function PushedAt(s: State, i: nat, id: Text): State
    requires i < |s.lanes|
  {
    var lane := s.lanes[i];
    Record(s.(lanes := s.lanes[i := lane.(waiting := lane.waiting + [Entry(s.next, id, false, false)])], next := s.next + 1),
      Enqueued, lane.key, s.next)
  }

  function AfterEnqueue(s: State, key: Text, id: Text): State {
    var i, t := Find(s.lanes, key), WithLane(s, key);
    DrainedAt(PushedAt(t, i, id), i)
  }

  /** The entry of a lane that is in flight gets its work called, once. */
  function AfterBegin(s: State, key: Text): State {
    var i := Find(s.lanes, key);
    if i == |s.lanes| || s.lanes[i].inflight.None? then s
    else s.(lanes := s.lanes[i := s.lanes[i].(inflight := Some(s.lanes[i].inflight.value.(begun := true)))])
  }

  function FinishedAt(s: State, i: nat): State
    requires i < |s.lanes| && s.lanes[i].inflight.Some?
  {
    var lane := s.lanes[i];
    Record(s.(lanes := s.lanes[i := lane.(inflight := None)]), Settled, lane.key, lane.inflight.value.serial)
  }

  /** The work of a lane has settled, which it can only after it was called. */
  function AfterSettle(s: State, key: Text): State {
    var i := Find(s.lanes, key);
    if i == |s.lanes| || s.lanes[i].inflight.None? || !s.lanes[i].inflight.value.begun then s
    else DrainedAt(FinishedAt(s, i), i)
  }

  function AbortedAt(s: State, i: nat): State
    requires i < |s.lanes| && s.lanes[i].inflight.Some?
  {
    s.(lanes := s.lanes[i := s.lanes[i].(inflight := Some(s.lanes[i].inflight.value.(aborted := true)))])
  }

  function DroppedAt(s: State, i: nat, w: nat): State
    requires i < |s.lanes| && w < |s.lanes[i].waiting|
  {
    var lane := s.lanes[i];
    Record(s.(lanes := s.lanes[i := lane.(waiting := lane.waiting[..w] + lane.waiting[w + 1..])]),
      Dropped, lane.key, lane.waiting[w].serial)
  }

  function AfterCancel(s: State, id: Text): (State, bool) {
    var i := FindHolder(s.lanes, id);
    if i == |s.lanes| then (s, false)
    else if s.lanes[i].inflight.Some? && s.lanes[i].inflight.value.id == id then (AbortedAt(s, i), true)
    else (PrunedAt(DroppedAt(s, i, FindId(s.lanes[i].waiting, id)), i), true)
  }

  datatype Input = Enqueue(suffix: Text, id: Text) | Cancel(id: Text) | Begin(key: Text) | Settle(key: Text)

  function After(s: State, input: Input): State {
    match input
    case Enqueue(suffix, id) => AfterEnqueue(s, LaneKey(suffix), id)
    case Cancel(id) => AfterCancel(s, id).0
    case Begin(key) => AfterBegin(s, key)
    case Settle(key) => AfterSettle(s, key)
  }

  function Run(inputs: seq<Input>): State {
    if inputs == [] then INITIAL else After(Run(inputs[..|inputs| - 1]), inputs[|inputs| - 1])
  }

  // ---------------------------------------------------------------- reading a history

  function Appended(serials: seq<nat>, more: bool, n: nat): seq<nat> {
    if more then serials + [n] else serials
  }

  /** The serials of one kind of happening in one lane, in order. */
  function Serials(history: seq<Happening>, kind: Kind, key: Text): seq<nat> {
    if history == [] then []
    else
      var n := |history| - 1;
      Appended(Serials(history[..n], kind, key), history[n].kind == kind && history[n].key == key, history[n].serial)
  }

  /** Entries whose promise has settled: dropped before they started, or done. */
  function Ended(history: seq<Happening>): seq<nat> {
    if history == [] then []
    else
      var n := |history| - 1;
      Appended(Ended(history[..n]), history[n].kind in {Dropped, Settled}, history[n].serial)
  }

  lemma HistoryGrows(history: seq<Happening>, h: Happening, kind: Kind, key: Text)
    ensures Serials(history + [h], kind, key) ==
            Appended(Serials(history, kind, key), h.kind == kind && h.key == key, h.serial)
    ensures Ended(history + [h]) == Appended(Ended(history), h.kind in {Dropped, Settled}, h.serial)
  {
    assert (history + [h])[..|history|] == history;
  }

  function Without(serials: seq<nat>, gone: seq<nat>): seq<nat> {
    if serials == [] then []
    else
      var n := |serials| - 1;
      Appended(Without(serials[..n], gone), serials[n] !in gone, serials[n])
  }

  function SerialsOf(entries: seq<Entry>): (r: seq<nat>)
    ensures |r| == |entries|
    ensures forall i :: 0 <= i < |r| ==> r[i] == entries[i].serial
  {
    seq(|entries|, i requires 0 <= i < |entries| => entries[i].serial)
  }

  function InFlight(lane: Lane): seq<Entry> {
    if lane.inflight.Some? then [lane.inflight.value] else []
  }

  function LaneOf(lanes: seq<Lane>, key: Text): Lane {
    var i := Find(lanes, key);
    if i < |lanes| then lanes[i] else Lane(key, None, [])
  }

  function LaneLive(lane: Lane): seq<nat> {
    SerialsOf(InFlight(lane)) + SerialsOf(lane.waiting)
  }

  /** Entries that are waiting or in flight. */
  function Live(lanes: seq<Lane>): seq<nat> {
    if lanes == [] then [] else LaneLive(lanes[0]) + Live(lanes[1..])
  }

  // ---------------------------------------------------------------- what every state keeps

  predicate DistinctLanes(lanes: seq<Lane>) {
    forall i, j :: 0 <= i < j < |lanes| ==> lanes[i].key != lanes[j].key
  }

  predicate Below(serials: seq<nat>, limit: nat) {
    forall i :: 0 <= i < |serials| ==> serials[i] < limit
  }

  predicate Ascending(serials: seq<nat>, limit: nat) {
    Below(serials, limit) && forall i, j :: 0 <= i < j < |serials| ==> serials[i] < serials[j]
  }

  /** In one lane: entries start in the order of their arrival, dropped ones excepted, one after another. */
  ghost predicate LaneOrder(s: State, key: Text) {
    && Serials(s.history, Started, key) + SerialsOf(LaneOf(s.lanes, key).waiting) ==
       Without(Serials(s.history, Enqueued, key), Serials(s.history, Dropped, key))
    && Serials(s.history, Started, key) ==
       Serials(s.history, Settled, key) + SerialsOf(InFlight(LaneOf(s.lanes, key)))
    && Ascending(Serials(s.history, Enqueued, key), s.next)
    && Below(Serials(s.history, Dropped, key), s.next)
  }

  /** The numbers below `n`, each once. */
  function Numbers(n: nat): multiset<nat> {
    if n == 0 then multiset{} else Numbers(n - 1) + multiset{n - 1}
  }

  /** Every entry is either alive or ended, and not twice. */
  ghost predicate Conserved(s: State) {
    multiset(Live(s.lanes)) + multiset(Ended(s.history)) == Numbers(s.next)
  }

  ghost predicate Sound(s: State) {
    && DistinctLanes(s.lanes) && Find(s.lanes, PROVIDER) < |s.lanes|
    && (forall key :: LaneOrder(s, key))
    && Conserved(s)
  }

  /** Nobody waits for a free lane, and only the default lane is kept while empty. */
  predicate Settledown(s: State) {
    forall i :: 0 <= i < |s.lanes| && s.lanes[i].inflight.None? ==> s.lanes[i].waiting == [] && s.lanes[i].key == PROVIDER
  }

  // ---------------------------------------------------------------- changing one lane

  lemma {:induction false} FindLane(lanes: seq<Lane>, i: nat)
    requires DistinctLanes(lanes) && i < |lanes|
    ensures Find(lanes, lanes[i].key) == i
  {
    if i > 0 {
      FindLane(lanes[1..], i - 1);
    }
  }

  lemma {:induction false} FindSame(lanes: seq<Lane>, others: seq<Lane>, key: Text)
    requires |lanes| == |others| && forall i :: 0 <= i < |lanes| ==> lanes[i].key == others[i].key
    ensures Find(lanes, key) == Find(others, key)
  {
    if lanes != [] {
      FindSame(lanes[1..], others[1..], key);
    }
  }

  lemma ChangedLane(lanes: seq<Lane>, i: nat, lane: Lane, key: Text)
    requires DistinctLanes(lanes) && i < |lanes| && lane.key == lanes[i].key
    ensures DistinctLanes(lanes[i := lane])
    ensures Find(lanes[i := lane], key) == Find(lanes, key)
    ensures LaneOf(lanes[i := lane], key) == if key == lane.key then lane else LaneOf(lanes, key)
  {
    FindSame(lanes, lanes[i := lane], key);
    FindLane(lanes, i);
  }

  lemma {:induction false} LiveChanged(lanes: seq<Lane>, i: nat, lane: Lane)
    requires i < |lanes|
    ensures multiset(Live(lanes[i := lane])) + multiset(LaneLive(lanes[i])) == multiset(Live(lanes)) + multiset(LaneLive(lane))
  {
    hide LaneLive;
    assert Live(lanes) == LaneLive(lanes[0]) + Live(lanes[1..]);
    if i == 0 {
      assert lanes[i := lane][1..] == lanes[1..];
    } else {
      assert lanes[i := lane][1..] == lanes[1..][i - 1 := lane] && lanes[i := lane][0] == lanes[0];
      LiveChanged(lanes[1..], i - 1, lane);
      assert multiset(Live(lanes)) == multiset(LaneLive(lanes[0])) + multiset(Live(lanes[1..]));
      assert multiset(Live(lanes[i := lane])) == multiset(LaneLive(lanes[0])) + multiset(Live(lanes[1..][i - 1 := lane]));
      Exchange(multiset(LaneLive(lanes[0])), multiset(Live(lanes[1..][i - 1 := lane])), multiset(LaneLive(lanes[i])),
        multiset(Live(lanes[1..])), multiset(LaneLive(lane)));
    }
  }

  lemma Exchange(x: multiset<nat>, r': multiset<nat>, o: multiset<nat>, r: multiset<nat>, l: multiset<nat>)
    requires r' + o == r + l
    ensures (x + r') + o == (x + r) + l
  {
    assert (x + r') + o == x + (r' + o);
    assert (x + r) + l == x + (r + l);
  }

  lemma Balance(
      live: multiset<nat>, live': multiset<nat>, lane: multiset<nat>, lane': multiset<nat>, all: multiset<nat>,
      gained: multiset<nat>, ended: multiset<nat>, more: multiset<nat>)
    requires live' + lane == live + lane' && live + ended == all && lane' + more == lane + gained
    ensures live' + (ended + more) == all + gained
  {
    forall n ensures (live' + (ended + more))[n] == (all + gained)[n] {
      assert (live' + lane)[n] == (live + lane')[n];
      assert (live + ended)[n] == all[n];
      assert (lane' + more)[n] == (lane + gained)[n];
    }
  }

  /** Changing a lane conserves entries if what it loses is what ends and what it gains is new. */
  lemma {:induction false} StillConserved(s: State, t: State, i: nat, lane: Lane, ended: multiset<nat>)
    requires Conserved(s) && i < |s.lanes| && t.lanes == s.lanes[i := lane] && s.next <= t.next <= s.next + 1
    requires multiset(Ended(t.history)) == multiset(Ended(s.history)) + ended
    requires multiset(LaneLive(lane)) + ended ==
             multiset(LaneLive(s.lanes[i])) + if t.next == s.next then multiset{} else multiset{s.next}
    ensures Conserved(t)
  {
    hide LaneLive, Live, Ended, Numbers;
    LiveChanged(s.lanes, i, lane);
    NextNumber(s.next);
    var gained := if t.next == s.next then multiset{} else multiset{s.next};
    Balance(multiset(Live(s.lanes)), multiset(Live(t.lanes)), multiset(LaneLive(s.lanes[i])), multiset(LaneLive(lane)),
      Numbers(s.next), gained, multiset(Ended(s.history)), ended);
  }

  lemma NextNumber(n: nat)
    ensures Numbers(n + 1) == Numbers(n) + multiset{n}
  {
  }

  /** A lane goes from `before` to `after`, and at most one thing happens in it. */
  predicate LaneStep(s: State, t: State, i: nat, after: Lane, happening: Option<Happening>) {
    && i < |s.lanes| && after.key == s.lanes[i].key
    && t.lanes == s.lanes[i := after]
    && t.history == s.history + (if happening.Some? then [happening.value] else [])
    && (happening.Some? ==> happening.value.key == after.key)
  }

  /** Other lanes keep their order; the changed one has to be looked at. */
  lemma OtherLanes(s: State, t: State, i: nat, after: Lane, happening: Option<Happening>)
    requires Sound(s) && LaneStep(s, t, i, after, happening) && s.next <= t.next
    requires LaneOrder(t, after.key)
    ensures DistinctLanes(t.lanes) && Find(t.lanes, PROVIDER) < |t.lanes|
    ensures forall key :: LaneOrder(t, key)
  {
    hide Without, Ascending, Below;
    forall key ensures LaneOrder(t, key) {
      assert LaneOrder(s, key);
      ChangedLane(s.lanes, i, after, key);
      Serialized(s, t, happening, key);
      AscendingFurther(Serials(s.history, Enqueued, key), Serials(s.history, Dropped, key), s.next, t.next);
    }
    ChangedLane(s.lanes, i, after, PROVIDER);
  }

  lemma AscendingFurther(serials: seq<nat>, others: seq<nat>, limit: nat, further: nat)
    requires Ascending(serials, limit) && Below(others, limit) && limit <= further
    ensures Ascending(serials, further) && Below(others, further)
  {
  }

  lemma Serialized(s: State, t: State, happening: Option<Happening>, key: Text)
    requires t.history == s.history + (if happening.Some? then [happening.value] else [])
    ensures happening.None? ==> t.history == s.history
    ensures happening.Some? ==>
              var h := happening.value;
              && (forall kind :: Serials(t.history, kind, key) ==
                    Appended(Serials(s.history, kind, key), h.kind == kind && h.key == key, h.serial))
              && Ended(t.history) == Appended(Ended(s.history), h.kind in {Dropped, Settled}, h.serial)
  {
    if happening.Some? {
      forall kind ensures Serials(t.history, kind, key) ==
              Appended(Serials(s.history, kind, key), happening.value.kind == kind && happening.value.key == key, happening.value.serial)
      {
        HistoryGrows(s.history, happening.value, kind, key);
      }
      HistoryGrows(s.history, happening.value, Enqueued, key);
    } else {
      assert s.history + [] == s.history;
    }
  }

  lemma {:induction false} WithoutConcat(a: seq<nat>, b: seq<nat>, gone: seq<nat>)
    ensures Without(a + b, gone) == Without(a, gone) + Without(b, gone)
    decreases |b|
  {
    if b == [] {
      assert a + b == a;
    } else {
      assert (a + b)[..|a + b| - 1] == a + b[..|b| - 1];
      WithoutConcat(a, b[..|b| - 1], gone);
    }
  }

  lemma {:induction false} WithoutOneMore(serials: seq<nat>, gone: seq<nat>, n: nat)
    ensures Without(serials, gone + [n]) == Without(Without(serials, gone), [n])
  {
    if serials != [] {
      var last := serials[|serials| - 1];
      WithoutOneMore(serials[..|serials| - 1], gone, n);
      var rest := Without(serials[..|serials| - 1], gone);
      if last !in gone {
        assert (rest + [last])[..|rest|] == rest;
      }
    }
  }

  lemma {:induction false} WithoutNothing(serials: seq<nat>, n: nat)
    requires n !in serials
    ensures Without(serials, [n]) == serials
  {
    if serials != [] {
      WithoutNothing(serials[..|serials| - 1], n);
    }
  }

  lemma Apart(before: seq<nat>, n: nat, after: seq<nat>, limit: nat)
    requires Ascending(before + [n] + after, limit)
    ensures n !in before && n !in after
  {
    var whole := before + [n] + after;
    assert whole[|before|] == n;
    forall i | 0 <= i < |before| ensures before[i] != n {
      assert whole[i] < whole[|before|];
    }
    forall i | 0 <= i < |after| ensures after[i] != n {
      assert whole[|before|] < whole[|before| + 1 + i];
    }
  }

  lemma WithoutAt(before: seq<nat>, n: nat, after: seq<nat>, limit: nat)
    requires Ascending(before + [n] + after, limit)
    ensures Without(before + [n] + after, [n]) == before + after
  {
    assert n !in before && n !in after by {
      hide Without;
      Apart(before, n, after, limit);
    }
    hide Ascending, Below;
    WithoutConcat(before + [n], after, [n]);
    WithoutConcat(before, [n], [n]);
    WithoutNothing(before, n);
    WithoutNothing(after, n);
    assert Without([n], [n]) == [];
  }

  lemma {:induction false} WithoutAscending(serials: seq<nat>, gone: seq<nat>, limit: nat)
    requires Ascending(serials, limit)
    ensures Ascending(Without(serials, gone), limit)
    ensures forall i :: 0 <= i < |Without(serials, gone)| ==> Without(serials, gone)[i] in serials
  {
    if serials != [] {
      var n := |serials| - 1;
      WithoutAscending(serials[..n], gone, if n == 0 then 0 else serials[n]);
    }
  }

  // ---------------------------------------------------------------- every primitive change is sound

  lemma PushSound(s: State, i: nat, id: Text)
    requires Sound(s) && i < |s.lanes|
    ensures Sound(PushedAt(s, i, id))
  {
    hide Without, Ascending, Below, LaneLive, Live, Serials, Ended, Find, Numbers, Conserved;
    var t, lane := PushedAt(s, i, id), s.lanes[i];
    var entry := Entry(s.next, id, false, false);
    var after := lane.(waiting := lane.waiting + [entry]);
    var happening := Happening(Enqueued, lane.key, s.next);
    Serialized(s, t, Some(happening), lane.key);
    assert LaneOrder(t, lane.key) by {
      ChangedLane(s.lanes, i, after, lane.key);
      FindLane(s.lanes, i);
      assert LaneOrder(s, lane.key);
      var started, waited := Serials(s.history, Started, lane.key), SerialsOf(lane.waiting);
      assert SerialsOf(after.waiting) == waited + [s.next];
      assert started + (waited + [s.next]) == (started + waited) + [s.next];
      PushOrder(Serials(s.history, Enqueued, lane.key), Serials(s.history, Dropped, lane.key), s.next);
    }
    OtherLanes(s, t, i, after, Some(happening));
    PushLive(lane, entry);
    StillConserved(s, t, i, after, multiset{});
  }

  lemma PushLive(lane: Lane, entry: Entry)
    ensures LaneLive(lane.(waiting := lane.waiting + [entry])) == LaneLive(lane) + [entry.serial]
  {
  }

  lemma PushOrder(enqueued: seq<nat>, dropped: seq<nat>, n: nat)
    requires Ascending(enqueued, n) && Below(dropped, n)
    ensures Ascending(enqueued + [n], n + 1) && Below(dropped, n + 1)
    ensures Without(enqueued + [n], dropped) == Without(enqueued, dropped) + [n]
  {
    assert (enqueued + [n])[..|enqueued|] == enqueued;
  }

  lemma StartSound(s: State, i: nat)
    requires Sound(s) && i < |s.lanes| && s.lanes[i].inflight.None? && s.lanes[i].waiting != []
    ensures Sound(DrainedAt(s, i))
  {
    hide Without, Ascending, Below, LaneLive, Live, Serials, Ended, Find, Numbers, Conserved;
    var t, lane := DrainedAt(s, i), s.lanes[i];
    var first := lane.waiting[0];
    var after := lane.(inflight := Some(first), waiting := lane.waiting[1..]);
    var happening := Happening(Started, lane.key, first.serial);
    Serialized(s, t, Some(happening), lane.key);
    assert LaneOrder(t, lane.key) by {
      ChangedLane(s.lanes, i, after, lane.key);
      FindLane(s.lanes, i);
      assert LaneOrder(s, lane.key);
      StartOrder(lane, Serials(s.history, Started, lane.key));
    }
    OtherLanes(s, t, i, after, Some(happening));
    StartLive(lane);
    StillConserved(s, t, i, after, multiset{});
  }

  lemma StartOrder(lane: Lane, started: seq<nat>)
    requires lane.inflight.None? && lane.waiting != []
    ensures var after := lane.(inflight := Some(lane.waiting[0]), waiting := lane.waiting[1..]);
            && started + SerialsOf(lane.waiting) == (started + [lane.waiting[0].serial]) + SerialsOf(after.waiting)
            && SerialsOf(InFlight(after)) == [lane.waiting[0].serial] && SerialsOf(InFlight(lane)) == []
  {
    assert SerialsOf(lane.waiting) == [lane.waiting[0].serial] + SerialsOf(lane.waiting[1..]);
  }

  lemma StartLive(lane: Lane)
    requires lane.inflight.None? && lane.waiting != []
    ensures LaneLive(lane.(inflight := Some(lane.waiting[0]), waiting := lane.waiting[1..])) == LaneLive(lane)
  {
  }

  lemma FinishSound(s: State, i: nat)
    requires Sound(s) && i < |s.lanes| && s.lanes[i].inflight.Some?
    ensures Sound(FinishedAt(s, i))
  {
    hide Without, Ascending, Below, LaneLive, Live, Serials, Ended, Find, Numbers, Conserved;
    var t, lane := FinishedAt(s, i), s.lanes[i];
    var after, n := lane.(inflight := None), lane.inflight.value.serial;
    var happening := Happening(Settled, lane.key, n);
    Serialized(s, t, Some(happening), lane.key);
    assert LaneOrder(t, lane.key) by {
      ChangedLane(s.lanes, i, after, lane.key);
      FindLane(s.lanes, i);
      assert LaneOrder(s, lane.key);
      assert SerialsOf(InFlight(after)) == [] && SerialsOf(InFlight(lane)) == [n];
    }
    OtherLanes(s, t, i, after, Some(happening));
    FinishLive(lane);
    StillConserved(s, t, i, after, multiset{n});
  }

  lemma FinishLive(lane: Lane)
    requires lane.inflight.Some?
    ensures LaneLive(lane) == [lane.inflight.value.serial] + LaneLive(lane.(inflight := None))
  {
  }

  lemma DropSound(s: State, i: nat, w: nat)
    requires Sound(s) && i < |s.lanes| && w < |s.lanes[i].waiting|
    ensures Sound(DroppedAt(s, i, w))
  {
    hide Without, Ascending, Below, LaneLive, Live, Serials, Ended, Find, Numbers, Conserved;
    var t, lane := DroppedAt(s, i, w), s.lanes[i];
    var n := lane.waiting[w].serial;
    var after := lane.(waiting := lane.waiting[..w] + lane.waiting[w + 1..]);
    var happening := Happening(Dropped, lane.key, n);
    Serialized(s, t, Some(happening), lane.key);
    assert LaneOrder(t, lane.key) by {
      ChangedLane(s.lanes, i, after, lane.key);
      FindLane(s.lanes, i);
      assert LaneOrder(s, lane.key);
      var started := Serials(s.history, Started, lane.key);
      var front, back := SerialsOf(lane.waiting[..w]), SerialsOf(lane.waiting[w + 1..]);
      assert started + SerialsOf(lane.waiting) == (started + front) + [n] + back;
      assert started + SerialsOf(after.waiting) == (started + front) + back;
      DropOrder(Serials(s.history, Enqueued, lane.key), Serials(s.history, Dropped, lane.key), started + front, n, back, s.next);
    }
    OtherLanes(s, t, i, after, Some(happening));
    DropLive(lane, w);
    StillConserved(s, t, i, after, multiset{n});
  }

  lemma DropOrder(enqueued: seq<nat>, dropped: seq<nat>, before: seq<nat>, n: nat, after: seq<nat>, limit: nat)
    requires Ascending(enqueued, limit) && Below(dropped, limit)
    requires Without(enqueued, dropped) == before + [n] + after
    ensures Without(enqueued, dropped + [n]) == before + after && Below(dropped + [n], limit)
  {
    WithoutAscending(enqueued, dropped, limit);
    WithoutOneMore(enqueued, dropped, n);
    WithoutAt(before, n, after, limit);
    assert (before + [n] + after)[|before|] == n;
  }

  lemma DropLive(lane: Lane, w: nat)
    requires w < |lane.waiting|
    ensures var after := lane.(waiting := lane.waiting[..w] + lane.waiting[w + 1..]);
            multiset(LaneLive(lane)) == multiset(LaneLive(after)) + multiset([lane.waiting[w].serial])
  {
    var n := lane.waiting[w].serial;
    var front, back := SerialsOf(InFlight(lane)) + SerialsOf(lane.waiting[..w]), SerialsOf(lane.waiting[w + 1..]);
    assert LaneLive(lane) == front + [n] + back;
    assert LaneLive(lane.(waiting := lane.waiting[..w] + lane.waiting[w + 1..])) == front + back;
  }

  /** Marking the entry in flight changes nothing that matters here. */
  lemma MarkSound(s: State, i: nat, entry: Entry)
    requires Sound(s) && i < |s.lanes| && s.lanes[i].inflight.Some? && s.lanes[i].inflight.value.serial == entry.serial
    ensures Sound(s.(lanes := s.lanes[i := s.lanes[i].(inflight := Some(entry))]))
  {
    hide Without, Ascending, Below, LaneLive, Live, Serials, Ended, Find, Numbers, Conserved;
    var lane := s.lanes[i];
    var after := lane.(inflight := Some(entry));
    var t := s.(lanes := s.lanes[i := after]);
    assert s.history + [] == s.history;
    assert LaneOrder(t, lane.key) by {
      ChangedLane(s.lanes, i, after, lane.key);
      FindLane(s.lanes, i);
      assert LaneOrder(s, lane.key);
      assert SerialsOf(InFlight(after)) == SerialsOf(InFlight(lane));
    }
    OtherLanes(s, t, i, after, None);
    MarkLive(lane, entry);
    StillConserved(s, t, i, after, multiset{});
  }

  lemma MarkLive(lane: Lane, entry: Entry)
    requires lane.inflight.Some? && lane.inflight.value.serial == entry.serial
    ensures LaneLive(lane.(inflight := Some(entry))) == LaneLive(lane)
  {
    assert SerialsOf(InFlight(lane)) == [entry.serial] == SerialsOf([entry]);
  }

  // ---------------------------------------------------------------- lanes come and go

  lemma {:induction false} FindAppended(lanes: seq<Lane>, lane: Lane, key: Text)
    ensures Find(lanes + [lane], key) ==
            if Find(lanes, key) < |lanes| then Find(lanes, key)
            else if lane.key == key then |lanes| else |lanes| + 1
  {
    if lanes == [] {
      assert [lane][1..] == [];
    } else {
      assert (lanes + [lane])[1..] == lanes[1..] + [lane];
      FindAppended(lanes[1..], lane, key);
    }
  }

  lemma {:induction false} LiveAppended(lanes: seq<Lane>, lane: Lane)
    requires LaneLive(lane) == []
    ensures Live(lanes + [lane]) == Live(lanes)
  {
    if lanes == [] {
      assert [lane][1..] == [];
    } else {
      assert (lanes + [lane])[1..] == lanes[1..] + [lane];
      LiveAppended(lanes[1..], lane);
    }
  }

  lemma NewLaneSound(s: State, key: Text)
    requires Sound(s)
    ensures Sound(WithLane(s, key)) && Find(s.lanes, key) < |WithLane(s, key).lanes|
    ensures WithLane(s, key).lanes[Find(s.lanes, key)].key == key
  {
    if Find(s.lanes, key) == |s.lanes| {
      var lane, t := Lane(key, None, []), WithLane(s, key);
      LiveAppended(s.lanes, lane);
      FindAppended(s.lanes, lane, PROVIDER);
      forall k ensures LaneOrder(t, k) {
        assert LaneOrder(s, k);
        FindAppended(s.lanes, lane, k);
      }
    }
  }

  lemma {:induction false} FindRemoved(lanes: seq<Lane>, i: nat, key: Text)
    requires DistinctLanes(lanes) && i < |lanes|
    ensures var f := Find(lanes, key);
            Find(lanes[..i] + lanes[i + 1..], key) == if f == i then |lanes| - 1 else if f < i then f else f - 1
    decreases |lanes|
  {
    var rest := lanes[..i] + lanes[i + 1..];
    if i == 0 {
      assert rest == lanes[1..];
    } else {
      assert rest[1..] == lanes[1..][..i - 1] + lanes[1..][i..];
      FindRemoved(lanes[1..], i - 1, key);
    }
  }

  lemma {:induction false} LaneOfRemoved(lanes: seq<Lane>, i: nat, key: Text)
    requires DistinctLanes(lanes) && i < |lanes|
    ensures LaneOf(lanes[..i] + lanes[i + 1..], key) == if key == lanes[i].key then Lane(key, None, []) else LaneOf(lanes, key)
    ensures key != lanes[i].key ==> (Find(lanes, key) < |lanes| <==> Find(lanes[..i] + lanes[i + 1..], key) < |lanes| - 1)
  {
    FindRemoved(lanes, i, key);
    FindLane(lanes, i);
  }

  lemma {:induction false} LiveRemoved(lanes: seq<Lane>, i: nat)
    requires i < |lanes| && LaneLive(lanes[i]) == []
    ensures Live(lanes[..i] + lanes[i + 1..]) == Live(lanes)
    decreases |lanes|
  {
    var rest := lanes[..i] + lanes[i + 1..];
    if i == 0 {
      assert rest == lanes[1..];
    } else {
      assert rest[1..] == lanes[1..][..i - 1] + lanes[1..][i..];
      LiveRemoved(lanes[1..], i - 1);
    }
  }

  lemma PruneSound(s: State, i: nat)
    requires Sound(s) && i < |s.lanes|
    ensures Sound(PrunedAt(s, i))
  {
    hide Without, Ascending, Below, Serials, Ended, Numbers, Live, Find;
    var lane, t := s.lanes[i], PrunedAt(s, i);
    if lane.key != PROVIDER && lane.inflight.None? && lane.waiting == [] {
      LiveRemoved(s.lanes, i);
      LaneOfRemoved(s.lanes, i, PROVIDER);
      FindLane(s.lanes, i);
      forall k ensures LaneOrder(t, k) {
        assert LaneOrder(s, k);
        LaneOfRemoved(s.lanes, i, k);
      }
    }
  }

  // ---------------------------------------------------------------- every run

  lemma DrainSound(s: State, i: nat)
    requires Sound(s) && i < |s.lanes|
    ensures Sound(DrainedAt(s, i))
  {
    hide Sound;
    if s.lanes[i].inflight.None? {
      if s.lanes[i].waiting == [] {
        PruneSound(s, i);
      } else {
        StartSound(s, i);
      }
    }
  }

  lemma StepSound(s: State, input: Input)
    requires Sound(s) && Settledown(s)
    ensures Sound(After(s, input)) && Settledown(After(s, input))
  {
    hide Sound, Settledown;
    match input
    case Enqueue(suffix, id) =>
      var key := LaneKey(suffix);
      var i, t := Find(s.lanes, key), WithLane(s, key);
      NewLaneSound(s, key);
      PushSound(t, i, id);
      DrainSound(PushedAt(t, i, id), i);
      EnqueueSettled(s, key, id);
    case Cancel(id) =>
      var i := FindHolder(s.lanes, id);
      if i < |s.lanes| {
        if s.lanes[i].inflight.Some? && s.lanes[i].inflight.value.id == id {
          MarkSound(s, i, s.lanes[i].inflight.value.(aborted := true));
        } else {
          var w := FindId(s.lanes[i].waiting, id);
          DropSound(s, i, w);
          PruneSound(DroppedAt(s, i, w), i);
        }
      }
      CancelSettled(s, id);
    case Begin(key) =>
      var i := Find(s.lanes, key);
      if i < |s.lanes| && s.lanes[i].inflight.Some? {
        MarkSound(s, i, s.lanes[i].inflight.value.(begun := true));
      }
      BeginSettled(s, key);
    case Settle(key) =>
      var i := Find(s.lanes, key);
      if i < |s.lanes| && s.lanes[i].inflight.Some? && s.lanes[i].inflight.value.begun {
        FinishSound(s, i);
        DrainSound(FinishedAt(s, i), i);
      }
      FinishSettled(s, key);
  }

  lemma EnqueueSettled(s: State, key: Text, id: Text)
    requires Settledown(s)
    ensures Settledown(AfterEnqueue(s, key, id))
  {
  }

  lemma CancelSettled(s: State, id: Text)
    requires Settledown(s)
    ensures Settledown(AfterCancel(s, id).0)
  {
  }

  lemma BeginSettled(s: State, key: Text)
    requires Settledown(s)
    ensures Settledown(AfterBegin(s, key))
  {
  }

  lemma FinishSettled(s: State, key: Text)
    requires Settledown(s)
    ensures Settledown(AfterSettle(s, key))
  {
  }

  /**
   Over every run: in each lane the entries start in the order of their arrival, those dropped
   excepted, and each starts only after the one before it has settled; every entry is alive or
   ended, never both and never twice; nobody waits for a free lane; and the only lane kept while
   empty is the default one, which is always there.
   */
  lemma {:induction false} RunSound(inputs: seq<Input>)
    ensures Sound(Run(inputs)) && Settledown(Run(inputs))
  {
    if inputs == [] {
      forall key ensures LaneOrder(INITIAL, key) {
      }
    } else {
      RunSound(inputs[..|inputs| - 1]);
      StepSound(Run(inputs[..|inputs| - 1]), inputs[|inputs| - 1]);
    }
  }

  lemma {:induction false} NumbersOnce(n: nat, k: nat)
    ensures Numbers(n)[k] == (if k < n then 1 else 0) && |Numbers(n)| == n
  {
    if n > 0 {
      NumbersOnce(n - 1, k);
    }
  }

  lemma {:induction false} AmongEnded(history: seq<Happening>, kind: Kind, key: Text, n: nat)
    requires kind in {Dropped, Settled} && n in Serials(history, kind, key)
    ensures multiset(Ended(history))[n] >= 1
  {
    var m := |history| - 1;
    if n in Serials(history[..m], kind, key) {
      AmongEnded(history[..m], kind, key, n);
    }
  }

  lemma {:induction false} EndedTwice(history: seq<Happening>, key: Text, other: Text, n: nat)
    requires n in Serials(history, Dropped, key) && n in Serials(history, Settled, other)
    ensures multiset(Ended(history))[n] >= 2
  {
    var m := |history| - 1;
    if n in Serials(history[..m], Dropped, key) {
      if n in Serials(history[..m], Settled, other) {
        EndedTwice(history[..m], key, other, n);
      } else {
        AmongEnded(history[..m], Dropped, key, n);
      }
    } else {
      AmongEnded(history[..m], Settled, other, n);
    }
  }

  lemma {:induction false} AmongLive(lanes: seq<Lane>, i: nat, n: nat)
    requires i < |lanes| && n in LaneLive(lanes[i])
    ensures multiset(Live(lanes))[n] >= 1
  {
    if i > 0 {
      AmongLive(lanes[1..], i - 1, n);
    }
  }

  /** The number of live entries is the number of entries that have not ended; none ends twice. */
  lemma {:induction false} DepthIsUnsettled(inputs: seq<Input>, n: nat)
    ensures |Live(Run(inputs).lanes)| == Run(inputs).next - |Ended(Run(inputs).history)|
    ensures multiset(Ended(Run(inputs).history))[n] <= 1
    ensures multiset(Live(Run(inputs).lanes))[n] + multiset(Ended(Run(inputs).history))[n] == if n < Run(inputs).next then 1 else 0
  {
    RunSound(inputs);
    NumbersOnce(Run(inputs).next, n);
    var s := Run(inputs);
    assert |multiset(Live(s.lanes)) + multiset(Ended(s.history))| == |Live(s.lanes)| + |Ended(s.history)|;
  }

  lemma DroppedStays(inputs: seq<Input>, more: seq<Input>)
    ensures Run(inputs).history <= Run(inputs + more).history
    decreases |more|
  {
    if more == [] {
      assert inputs + more == inputs;
    } else {
      var front := inputs + more[..|more| - 1];
      DroppedStays(inputs, more[..|more| - 1]);
      assert (inputs + more)[..|inputs + more| - 1] == front;
      HistoryKept(Run(front), more[|more| - 1]);
    }
  }

  lemma HistoryKept(s: State, input: Input)
    ensures s.history <= After(s, input).history
  {
    match input
    case Enqueue(suffix, id) =>
      var i, t := Find(s.lanes, LaneKey(suffix)), WithLane(s, LaneKey(suffix));
      assert s.history <= PushedAt(t, i, id).history <= After(s, input).history;
    case Settle(key) =>
      var i := Find(s.lanes, key);
      if i < |s.lanes| && s.lanes[i].inflight.Some? && s.lanes[i].inflight.value.begun {
        assert s.history <= FinishedAt(s, i).history <= After(s, input).history;
      }
    case _ =>
  }

  lemma {:induction false} SerialsOfLonger(history: seq<Happening>, longer: seq<Happening>, kind: Kind, key: Text, n: nat)
    requires history <= longer && n in Serials(history, kind, key)
    ensures n in Serials(longer, kind, key)
    decreases |longer|
  {
    if |history| < |longer| {
      SerialsOfLonger(history, longer[..|longer| - 1], kind, key, n);
    } else {
      assert history == longer;
    }
  }

  /** An entry cancelled while it waited never starts, whatever happens later. */
  lemma CancelledNeverStarts(inputs: seq<Input>, more: seq<Input>, key: Text, other: Text, n: nat)
    requires n in Serials(Run(inputs).history, Dropped, key)
    ensures n !in Serials(Run(inputs + more).history, Started, other)
  {
    var s := Run(inputs + more);
    DroppedStays(inputs, more);
    SerialsOfLonger(Run(inputs).history, s.history, Dropped, key, n);
    RunSound(inputs + more);
    NumbersOnce(s.next, n);
    AmongEnded(s.history, Dropped, key, n);
    assert LaneOrder(s, other);
    assert (multiset(Live(s.lanes)) + multiset(Ended(s.history)))[n] <= 1;
    if n in Serials(s.history, Settled, other) {
      EndedTwice(s.history, key, other, n);
    } else if n in SerialsOf(InFlight(LaneOf(s.lanes, other))) {
      AmongLive(s.lanes, Find(s.lanes, other), n);
    }
  }

  /** No two live entries share the identifier. */
  predicate UniqueId(lanes: seq<Lane>, id: Text) {
    && (forall i, j :: 0 <= i < j < |lanes| ==> !(Holds(lanes[i], id) && Holds(lanes[j], id)))
    && forall i :: 0 <= i < |lanes| ==>
         && !(lanes[i].inflight.Some? && lanes[i].inflight.value.id == id && HasId(lanes[i].waiting, id))
         && forall v, w :: 0 <= v < w < |lanes[i].waiting| ==> !(lanes[i].waiting[v].id == id && lanes[i].waiting[w].id == id)
  }

  predicate Busy(lanes: seq<Lane>, id: Text) {
    exists i :: 0 <= i < |lanes| && Holds(lanes[i], id)
  }

  /** Cancelling finds whatever is live; where the identifier is unique nothing is left but an aborted entry in flight. */
  lemma CancelReaches(s: State, id: Text)
    ensures AfterCancel(s, id).1 <==> Busy(s.lanes, id)
    ensures UniqueId(s.lanes, id) ==>
              forall i :: 0 <= i < |AfterCancel(s, id).0.lanes| ==>
                var lane := AfterCancel(s, id).0.lanes[i];
                !HasId(lane.waiting, id) && (lane.inflight.Some? && lane.inflight.value.id == id ==> lane.inflight.value.aborted)
  {
    var h, t := FindHolder(s.lanes, id), AfterCancel(s, id).0;
    if UniqueId(s.lanes, id) && h < |s.lanes| {
      forall j | 0 <= j < |s.lanes| && j != h ensures !Holds(s.lanes[j], id) {
      }
      if s.lanes[h].inflight.Some? && s.lanes[h].inflight.value.id == id {
      } else {
        var waiting := s.lanes[h].waiting;
        var w := FindId(waiting, id);
        var rest := waiting[..w] + waiting[w + 1..];
        forall k | 0 <= k < |rest| ensures rest[k].id != id {
          assert rest[k] == if k < w then waiting[k] else waiting[k + 1];
        }
      }
    }
  }

  // ---------------------------------------------------------------- the queue

  class AgentInvocationQueue {
    var lanes: seq<Lane>
    var next: nat
    ghost var history: seq<Happening>

    ghost function View(): State
      reads this
    {
      State(lanes, next, history)
    }

    ghost predicate Valid()
      reads this
    {
      Sound(View()) && Settledown(View())
    }

    constructor ()
      ensures Valid() && View() == INITIAL
    {
      lanes, next, history := [Lane(PROVIDER, None, [])], 0, [];
      new;
      RunSound([]);
    }

    method PruneLane(key: Text)
      requires Find(lanes, key) < |lanes|
      modifies this
      ensures View() == PrunedAt(old(View()), Find(old(lanes), key))
    {
      if key == PROVIDER { return; }
      var i := Find(lanes, key);
      if lanes[i].inflight.Some? || lanes[i].waiting != [] { return; }
      lanes := lanes[..i] + lanes[i + 1..];
    }

    /** drain: the first waiting entry takes the lane if it is free. */
    method Drain(key: Text)
      requires Find(lanes, key) < |lanes|
      modifies this
      ensures View() == DrainedAt(old(View()), Find(old(lanes), key))
    {
      var i := Find(lanes, key);
      if lanes[i].inflight.Some? { return; }
      if lanes[i].waiting == [] {
        PruneLane(key);
        return;
      }
      var entry := lanes[i].waiting[0];
      lanes := lanes[i := lanes[i].(inflight := Some(entry), waiting := lanes[i].waiting[1..])];
      history := history + [Happening(Started, key, entry.serial)];
    }

    method Enqueue(suffix: Text, id: Text) returns (serial: nat)
      requires Valid()
      modifies this
      ensures Valid() && View() == After(old(View()), Input.Enqueue(suffix, id)) && serial == old(next)
    {
      hide Sound, Settledown;
      StepSound(View(), Input.Enqueue(suffix, id));
      var key := LaneKey(suffix);
      var i := Find(lanes, key);
      FindAppended(lanes, Lane(key, None, []), key);
      if i == |lanes| {
        lanes := lanes + [Lane(key, None, [])];
      }
      serial := next;
      next := next + 1;
      ghost var known := lanes;
      lanes := lanes[i := lanes[i].(waiting := lanes[i].waiting + [Entry(serial, id, false, false)])];
      history := history + [Happening(Enqueued, key, serial)];
      FindSame(known, lanes, key);
      if lanes[i].inflight.None? {
        Drain(key);
      }
    }

    /** The branch of `cancel` that removes a waiting entry. */
    method Drop(i: nat, w: nat)
      requires DistinctLanes(lanes) && i < |lanes| && w < |lanes[i].waiting|
      modifies this
      ensures View() == PrunedAt(DroppedAt(old(View()), i, w), i)
    {
      var lane := lanes[i];
      lanes := lanes[i := lane.(waiting := lane.waiting[..w] + lane.waiting[w + 1..])];
      history := history + [Happening(Dropped, lane.key, lane.waiting[w].serial)];
      assert View() == DroppedAt(old(View()), i, w);
      FindSame(old(lanes), lanes, lane.key);
      FindLane(old(lanes), i);
      PruneLane(lane.key);
    }

    method Cancel(id: Text) returns (found: bool)
      requires Valid()
      modifies this
      ensures Valid() && (View(), found) == AfterCancel(old(View()), id)
    {
      hide Settledown, LaneOrder, Conserved;
      StepSound(View(), Input.Cancel(id));
      for i := 0 to |lanes|
        invariant View() == old(View())
        invariant forall j :: 0 <= j < i ==> !Holds(lanes[j], id)
      {
        var lane := lanes[i];
        ghost var holder := FindHolder(lanes, id);
        if lane.inflight.Some? && lane.inflight.value.id == id {
          lanes := lanes[i := lane.(inflight := Some(lane.inflight.value.(aborted := true)))];
          return true;
        }
        if FindId(lane.waiting, id) < |lane.waiting| {
          assert holder == i;
          Drop(i, FindId(lane.waiting, id));
          return true;
        }
      }
      found := false;
    }

    /** The microtask that calls the work of the entry in flight. */
    method Begin(key: Text)
      requires Valid()
      modifies this
      ensures Valid() && View() == After(old(View()), Input.Begin(key))
    {
      hide Sound, Settledown;
      StepSound(View(), Input.Begin(key));
      var i := Find(lanes, key);
      if i < |lanes| && lanes[i].inflight.Some? {
        lanes := lanes[i := lanes[i].(inflight := Some(lanes[i].inflight.value.(begun := true)))];
      }
    }

    /** Either callback of the work's promise. */
    method Settle(key: Text)
      requires Valid()
      modifies this
      ensures Valid() && View() == After(old(View()), Input.Settle(key))
    {
      hide Sound, Settledown, DrainedAt;
      StepSound(View(), Input.Settle(key));
      var i := Find(lanes, key);
      if i < |lanes| && lanes[i].inflight.Some? && lanes[i].inflight.value.begun {
        ghost var before := lanes;
        history := history + [Happening(Settled, key, lanes[i].inflight.value.serial)];
        lanes := lanes[i := lanes[i].(inflight := None)];
        FindSame(before, lanes, key);
        Drain(key);
      }
    }

    method GetDepth() returns (depth: nat)
      ensures depth == |Live(lanes)|
    {
      depth := 0;
      assert lanes[0..] == lanes;
      for i := 0 to |lanes|
        invariant depth + |Live(lanes[i..])| == |Live(lanes)|
      {
        assert lanes[i..][1..] == lanes[i + 1..];
        depth := depth + |lanes[i].waiting| + if lanes[i].inflight.Some? then 1 else 0;
      }
    }

    method IsBusy(id: Text) returns (busy: bool)
      ensures busy <==> Busy(lanes, id)
    {
      for i := 0 to |lanes|
        invariant forall j :: 0 <= j < i ==> !Holds(lanes[j], id)
      {
        if (lanes[i].inflight.Some? && lanes[i].inflight.value.id == id) || FindId(lanes[i].waiting, id) < |lanes[i].waiting| {
          return true;
        }
      }
      busy := false;
    }
  }
}
