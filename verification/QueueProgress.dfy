/**
 What the queue does, lane by lane (packages/agent/src/agent-invocation-queue.ts).
 */
module QueueProgress {
  import opened Prelude
  import opened Utf16
  import opened InvocationQueue

  // ---------------------------------------------------------------- steps in terms of lanes and histories

  /** Of all lanes only this one changes; a lane that is not kept is as an empty one. */
  ghost predicate OnlyLane(s: State, t: State, key: Text, lane: Lane) {
    LaneOf(t.lanes, key) == lane && forall other :: other != key ==> LaneOf(t.lanes, other) == LaneOf(s.lanes, other)
  }

  function Happened(kind: Kind, key: Text, serials: seq<nat>): seq<Happening> {
    if serials == [] then [] else Happened(kind, key, serials[..|serials| - 1]) + [Happening(kind, key, serials[|serials| - 1])]
  }

  /** The first waiter, if there is one. */
  function FirstOf(entries: seq<Entry>): seq<nat> {
    if entries == [] then [] else [entries[0].serial]
  }

  /** A free lane passes to the first waiter. */
  function Passed(key: Text, waiting: seq<Entry>): Lane {
    if waiting == [] then Lane(key, None, []) else Lane(key, Some(waiting[0]), waiting[1..])
  }

  lemma KeyOfLane(lanes: seq<Lane>, key: Text)
    ensures LaneOf(lanes, key).key == key
  {
  }

  lemma Replaced(s: State, t: State, i: nat, lane: Lane)
    requires DistinctLanes(s.lanes) && i < |s.lanes| && lane.key == s.lanes[i].key && t.lanes == s.lanes[i := lane]
    ensures DistinctLanes(t.lanes) && OnlyLane(s, t, lane.key, lane)
  {
    ChangedLane(s.lanes, i, lane, lane.key);
    forall other | other != lane.key
      ensures LaneOf(t.lanes, other) == LaneOf(s.lanes, other)
    {
      ChangedLane(s.lanes, i, lane, other);
    }
  }

  lemma Pruned(s: State, i: nat)
    requires DistinctLanes(s.lanes) && i < |s.lanes|
    ensures PrunedAt(s, i).history == s.history && PrunedAt(s, i).next == s.next
    ensures OnlyLane(s, PrunedAt(s, i), s.lanes[i].key, s.lanes[i])
  {
    var key := s.lanes[i].key;
    FindLane(s.lanes, i);
    if PrunedAt(s, i) != s {
      LaneOfRemoved(s.lanes, i, key);
      forall other | other != key
        ensures LaneOf(PrunedAt(s, i).lanes, other) == LaneOf(s.lanes, other)
      {
        LaneOfRemoved(s.lanes, i, other);
      }
    }
  }

  /** Draining a free lane lets its first waiter start, if there is one. */
  lemma Drained(s: State, i: nat)
    requires DistinctLanes(s.lanes) && i < |s.lanes|
    ensures var lane, t := s.lanes[i], DrainedAt(s, i);
            && t.next == s.next
            && (lane.inflight.Some? ==> t == s)
            && (lane.inflight.None? ==>
                  && t.history == s.history + Happened(Started, lane.key, FirstOf(lane.waiting))
                  && OnlyLane(s, t, lane.key, Passed(lane.key, lane.waiting)))
  {
    var lane, t := s.lanes[i], DrainedAt(s, i);
    if lane.inflight.None? {
      if lane.waiting == [] {
        Pruned(s, i);
        assert s.history + [] == s.history;
      } else {
        Replaced(s, t, i, lane.(inflight := Some(lane.waiting[0]), waiting := lane.waiting[1..]));
        OneHappened(Started, lane.key, lane.waiting[0].serial);
      }
    }
  }

  lemma OneHappened(kind: Kind, key: Text, serial: nat)
    ensures Happened(kind, key, [serial]) == [Happening(kind, key, serial)]
    ensures Happened(kind, key, []) == []
  {
    assert [serial][..0] == [];
  }

  lemma Composed(s: State, t: State, u: State, key: Text, lane: Lane, last: Lane)
    requires OnlyLane(s, t, key, lane) && OnlyLane(t, u, key, last)
    ensures OnlyLane(s, u, key, last)
  {
  }

  /** Settling: an entry whose work was called settles, and the first waiter, if any, starts. */
  lemma SettleExact(s: State, key: Text)
    requires DistinctLanes(s.lanes)
    ensures var lane, t := LaneOf(s.lanes, key), After(s, Input.Settle(key));
            && t.next == s.next
            && (if lane.inflight.Some? && lane.inflight.value.begun then
                  && t.history == s.history + [Happening(Settled, key, lane.inflight.value.serial)] + Happened(Started, key, FirstOf(lane.waiting))
                  && OnlyLane(s, t, key, Passed(key, lane.waiting))
                else t == s)
  {
    hide Happened;
    var i := Find(s.lanes, key);
    if i < |s.lanes| && s.lanes[i].inflight.Some? && s.lanes[i].inflight.value.begun {
      var lane := s.lanes[i];
      var freed := lane.(inflight := None);
      Replaced(s, FinishedAt(s, i), i, freed);
      Drained(FinishedAt(s, i), i);
      Composed(s, FinishedAt(s, i), After(s, Input.Settle(key)), key, freed, Passed(key, lane.waiting));
    }
  }

  /** The work of the entry in flight is called, and nothing else changes. */
  lemma BeginExact(s: State, key: Text)
    requires DistinctLanes(s.lanes)
    ensures var lane, t := LaneOf(s.lanes, key), After(s, Input.Begin(key));
            && t.next == s.next && t.history == s.history
            && (if lane.inflight.Some? then OnlyLane(s, t, key, lane.(inflight := Some(lane.inflight.value.(begun := true)))) else t == s)
  {
    var i := Find(s.lanes, key);
    if i < |s.lanes| && s.lanes[i].inflight.Some? {
      var lane := s.lanes[i];
      Replaced(s, After(s, Input.Begin(key)), i, lane.(inflight := Some(lane.inflight.value.(begun := true))));
    }
  }

  lemma Found(s: State, key: Text)
    requires DistinctLanes(s.lanes)
    ensures var i, t := Find(s.lanes, key), WithLane(s, key);
            && DistinctLanes(t.lanes) && i < |t.lanes| && t.lanes[i] == LaneOf(s.lanes, key)
            && t.history == s.history && t.next == s.next
            && forall other :: LaneOf(t.lanes, other) == LaneOf(s.lanes, other)
  {
    if Find(s.lanes, key) == |s.lanes| {
      forall other
        ensures LaneOf(WithLane(s, key).lanes, other) == LaneOf(s.lanes, other)
      {
        FindAppended(s.lanes, Lane(key, None, []), other);
      }
    }
  }

  /** A new entry waits behind the others of its lane, and if the lane was free its first waiter starts. */
  lemma EnqueueExact(s: State, suffix: Text, id: Text)
    requires DistinctLanes(s.lanes)
    ensures var key := LaneKey(suffix);
            var lane, t := LaneOf(s.lanes, key), After(s, Input.Enqueue(suffix, id));
            var waiting := lane.waiting + [Entry(s.next, id, false, false)];
            && t.next == s.next + 1
            && (if lane.inflight.Some? then
                  && t.history == s.history + [Happening(Enqueued, key, s.next)]
                  && OnlyLane(s, t, key, lane.(waiting := waiting))
                else
                  && t.history == s.history + [Happening(Enqueued, key, s.next)] + Happened(Started, key, FirstOf(waiting))
                  && OnlyLane(s, t, key, Passed(key, waiting)))
  {
    hide Happened, LaneKey, LaneOf;
    var key := LaneKey(suffix);
    Found(s, key);
    KeyOfLane(s.lanes, key);
    var i, t := Find(s.lanes, key), WithLane(s, key);
    var lane := t.lanes[i];
    var waiting := lane.waiting + [Entry(s.next, id, false, false)];
    var pushed := PushedAt(t, i, id);
    Replaced(t, pushed, i, lane.(waiting := waiting));
    Drained(pushed, i);
    if lane.inflight.None? {
      Composed(t, pushed, After(s, Input.Enqueue(suffix, id)), key, lane.(waiting := waiting), Passed(key, waiting));
    }
  }

  /** Without its w-th entry. */
  function Less(entries: seq<Entry>, w: nat): seq<Entry>
    requires w < |entries|
  {
    entries[..w] + entries[w + 1..]
  }

  /** The lane of an identifier: the first that holds it, in the order in which lanes came up. */
  lemma CancelExact(s: State, id: Text)
    requires DistinctLanes(s.lanes)
    ensures var (t, found) := AfterCancel(s, id);
            && t.next == s.next
            && (found <==> exists i :: 0 <= i < |s.lanes| && Holds(s.lanes[i], id))
            && (!found ==> t == s)
            && (found ==> exists i ::
                  && 0 <= i < |s.lanes| && Holds(s.lanes[i], id) && (forall j :: 0 <= j < i ==> !Holds(s.lanes[j], id))
                  && CancelledIn(s, t, s.lanes[i], id))
  {
    var i := FindHolder(s.lanes, id);
    if i < |s.lanes| {
      var lane, t := s.lanes[i], AfterCancel(s, id).0;
      if lane.inflight.Some? && lane.inflight.value.id == id {
        Replaced(s, t, i, lane.(inflight := Some(lane.inflight.value.(aborted := true))));
        assert s.history + [] == s.history;
      } else {
        var w := FindId(lane.waiting, id);
        var dropped := DroppedAt(s, i, w);
        Replaced(s, dropped, i, lane.(waiting := Less(lane.waiting, w)));
        Pruned(dropped, i);
        Composed(s, dropped, t, lane.key, lane.(waiting := Less(lane.waiting, w)), lane.(waiting := Less(lane.waiting, w)));
        assert DroppedFrom(s, t, lane, id, w);
      }
      assert CancelledIn(s, t, lane, id);
    }
  }

  /** The w-th entry is the first with the identifier, and it is gone. */
  ghost predicate DroppedFrom(s: State, t: State, lane: Lane, id: Text, w: nat) {
    && w < |lane.waiting| && lane.waiting[w].id == id && (forall v :: 0 <= v < w ==> lane.waiting[v].id != id)
    && t.history == s.history + [Happening(Dropped, lane.key, lane.waiting[w].serial)]
    && OnlyLane(s, t, lane.key, lane.(waiting := Less(lane.waiting, w)))
  }

  /** An entry in flight has its signal fired; otherwise the first waiter with the identifier is dropped. */
  ghost predicate CancelledIn(s: State, t: State, lane: Lane, id: Text) {
    if lane.inflight.Some? && lane.inflight.value.id == id then
      && t.history == s.history
      && OnlyLane(s, t, lane.key, lane.(inflight := Some(lane.inflight.value.(aborted := true))))
    else exists w :: DroppedFrom(s, t, lane, id, w)
  }

  // ---------------------------------------------------------------- everything settles

  lemma OneMore(inputs: seq<Input>, input: Input)
    ensures Run(inputs + [input]) == After(Run(inputs), input)
  {
    assert (inputs + [input])[..|inputs|] == inputs;
  }

  /** Only calls and callbacks of the work of one lane. */
  predicate WorksOf(inputs: seq<Input>, key: Text) {
    forall i :: 0 <= i < |inputs| ==> inputs[i] == Input.Begin(key) || inputs[i] == Input.Settle(key)
  }

  /** Calling the work in flight and letting it settle passes the lane on. */
  lemma Round(inputs: seq<Input>, key: Text)
    requires LaneOf(Run(inputs).lanes, key).inflight.Some?
    ensures var lane := LaneOf(Run(inputs).lanes, key);
            var t := Run(inputs + [Input.Begin(key), Input.Settle(key)]);
            && LaneOf(t.lanes, key) == Passed(key, lane.waiting)
            && lane.inflight.value.serial in Serials(t.history, Settled, key)
  {
    var steps := [Input.Begin(key), Input.Settle(key)];
    var begun := inputs + [Input.Begin(key)];
    assert inputs + steps == begun + [Input.Settle(key)];
    OneMore(inputs, Input.Begin(key));
    OneMore(begun, Input.Settle(key));
    RunSound(inputs);
    RunSound(begun);
    var lane := LaneOf(Run(inputs).lanes, key);
    BeginExact(Run(inputs), key);
    SettleExact(Run(begun), key);
    hide Run, LaneOf, Sound, Settledown, Serials, Happened;
    var history := Run(inputs).history;
    var happening := Happening(Settled, key, lane.inflight.value.serial);
    HistoryGrows(history, happening, Settled, key);
    SerialsOfLonger(history + [happening], Run(inputs + steps).history, Settled, key, lane.inflight.value.serial);
  }

  /** An entry that waits is behind one in flight. */
  lemma BehindSomeone(s: State, key: Text, n: nat)
    requires Settledown(s) && n in LaneLive(LaneOf(s.lanes, key))
    ensures LaneOf(s.lanes, key).inflight.Some?
  {
  }

  /** In every run every live entry of a lane settles if the works of its lane are called and settle. */
  lemma {:induction false} LaneSettles(inputs: seq<Input>, key: Text, n: nat) returns (more: seq<Input>)
    requires n in LaneLive(LaneOf(Run(inputs).lanes, key))
    ensures WorksOf(more, key) && n in Serials(Run(inputs + more).history, Settled, key)
    decreases |LaneOf(Run(inputs).lanes, key).waiting|
  {
    hide Run, Sound, Serials;
    RunSound(inputs);
    var lane := LaneOf(Run(inputs).lanes, key);
    BehindSomeone(Run(inputs), key, n);
    hide Settledown, LaneOf;
    more := [Input.Begin(key), Input.Settle(key)];
    Round(inputs, key);
    if n != lane.inflight.value.serial {
      StillLive(lane, n);
      var rest := LaneSettles(inputs + more, key, n);
      assert inputs + more + rest == inputs + (more + rest);
      more := more + rest;
    }
  }

  lemma StillLive(lane: Lane, n: nat)
    requires lane.inflight.Some? && n in LaneLive(lane) && n != lane.inflight.value.serial
    ensures lane.waiting != [] && n in LaneLive(Passed(lane.key, lane.waiting))
    ensures |Passed(lane.key, lane.waiting).waiting| < |lane.waiting|
  {
    var serials := SerialsOf(lane.waiting);
    assert LaneLive(lane) == [lane.inflight.value.serial] + serials;
    assert n in serials;
    var after := Passed(lane.key, lane.waiting);
    assert LaneLive(after) == [lane.waiting[0].serial] + SerialsOf(lane.waiting[1..]);
    var i :| 0 <= i < |serials| && serials[i] == n;
    if i > 0 {
      assert SerialsOf(lane.waiting[1..])[i - 1] == n;
    }
  }

  lemma {:induction false} InSomeLane(lanes: seq<Lane>, n: nat) returns (i: nat)
    requires n in Live(lanes)
    ensures i < |lanes| && n in LaneLive(lanes[i])
  {
    if n in LaneLive(lanes[0]) {
      i := 0;
    } else {
      i := InSomeLane(lanes[1..], n);
      i := i + 1;
    }
  }

  /** And so with every live entry, whatever happened before. */
  lemma EveryEntrySettles(inputs: seq<Input>, n: nat) returns (key: Text, more: seq<Input>)
    requires n in Live(Run(inputs).lanes)
    ensures WorksOf(more, key) && n in Serials(Run(inputs + more).history, Settled, key)
  {
    hide Run, Sound, LaneLive, Serials;
    RunSound(inputs);
    var lanes := Run(inputs).lanes;
    var i := InSomeLane(lanes, n);
    assert DistinctLanes(lanes) by {
      RunDistinct(inputs);
    }
    FindLane(lanes, i);
    key := lanes[i].key;
    more := LaneSettles(inputs, key, n);
  }

  lemma RunDistinct(inputs: seq<Input>)
    ensures DistinctLanes(Run(inputs).lanes)
  {
    hide Run;
    RunSound(inputs);
  }
}
