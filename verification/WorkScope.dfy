/**
 Sealing and draining admitted work (packages/core/src/async-work-scope.ts).
 */
module WorkScope {
  import opened Prelude

  // The scope, and the worker router that runs its calls in one
  // (apps/desktop/electron/a2a-worker-composition.ts). A step is what runs between two awaits. An
  // admitted call runs its body, which then lets go of its controller; later its promise settles;
  // later still a callback removes it from the scope.

  datatype Progress = Running | BodyDone | Settled | Removed

  datatype Call = Call(progress: Progress, aborted: bool)

  /** A `drain` waits for the promises it found, or has returned. */
  datatype Drain = Waiting(found: set<nat>) | Done

  datatype State = State(calls: seq<Call>, controllers: set<nat>, pending: set<nat>, sealed: bool, drains: seq<Drain>)

  const INITIAL: State := State([], {}, {}, false, [])

  datatype Step =
    | Invoke(upstreamAborted: bool)
    | Upstream(i: nat)
    | EndBody(i: nat)
    | Settle(i: nat)
    | Remove(i: nat)
    | Shutdown
    | Resume(d: nat)

  function WithCall(s: State, i: nat, call: Call): State
    requires i < |s.calls|
  {
    s.(calls := s.calls[i := call])
  }

  /** The head of the drain loop. */
  function LoopHead(pending: set<nat>): Drain {
    if pending == {} then Done else Waiting(pending)
  }

  function AllAborted(calls: seq<Call>, controllers: set<nat>): (r: seq<Call>)
    ensures |r| == |calls|
  {
    seq(|calls|, i requires 0 <= i < |calls| => if i in controllers then calls[i].(aborted := true) else calls[i])
  }

  predicate HasSettled(calls: seq<Call>, i: nat) {
    i < |calls| && calls[i].progress in {Settled, Removed}
  }

  /** A step that is not enabled leaves the state alone. */
  function After(s: State, step: Step): State {
    match step
    case Invoke(upstreamAborted) =>
      if s.sealed then s
      else s.(calls := s.calls + [Call(Running, upstreamAborted)], controllers := s.controllers + {|s.calls|},
              pending := s.pending + {|s.calls|})
    case Upstream(i) =>
      if i < |s.calls| && s.calls[i].progress.Running? then WithCall(s, i, s.calls[i].(aborted := true)) else s
    case EndBody(i) =>
      if i < |s.calls| && s.calls[i].progress.Running? then
        WithCall(s, i, s.calls[i].(progress := BodyDone)).(controllers := s.controllers - {i})
      else s
    case Settle(i) =>
      if i < |s.calls| && s.calls[i].progress.BodyDone? then WithCall(s, i, s.calls[i].(progress := Settled)) else s
    case Remove(i) =>
      if i < |s.calls| && s.calls[i].progress.Settled? then
        WithCall(s, i, s.calls[i].(progress := Removed)).(pending := s.pending - {i})
      else s
    case Shutdown =>
      s.(sealed := true, calls := AllAborted(s.calls, s.controllers), drains := s.drains + [LoopHead(s.pending)])
    case Resume(d) =>
      if d < |s.drains| && s.drains[d].Waiting? && (forall i :: i in s.drains[d].found ==> HasSettled(s.calls, i)) then
        s.(drains := s.drains[d := LoopHead(s.pending)])
      else s
  }

  function RunFrom(s: State, steps: seq<Step>): State {
    if steps == [] then s else After(RunFrom(s, steps[..|steps| - 1]), steps[|steps| - 1])
  }

  // ---------------------------------------------------------------- what every state keeps

  /** The two sets hold exactly the calls whose body runs, and those whose promise is not yet removed. */
  ghost predicate Tracked(s: State) {
    && (forall i: nat :: i in s.controllers <==> i < |s.calls| && s.calls[i].progress.Running?)
    && (forall i: nat :: i in s.pending <==> i < |s.calls| && !s.calls[i].progress.Removed?)
  }

  ghost predicate Sound(s: State) {
    && Tracked(s)
    && (s.sealed ==> forall i :: 0 <= i < |s.calls| && s.calls[i].progress.Running? ==> s.calls[i].aborted)
    && (s.drains != [] ==> s.sealed)
    && (Done in s.drains ==> s.pending == {})
    && (forall d, i :: 0 <= d < |s.drains| && s.drains[d].Waiting? && i in s.drains[d].found ==> i < |s.calls|)
  }

  lemma SoundStep(s: State, step: Step)
    requires Sound(s)
    ensures Sound(After(s, step))
    ensures s.sealed ==> After(s, step).sealed && |After(s, step).calls| == |s.calls|
  {
    var t := After(s, step);
    if Done in t.drains && Done !in s.drains {
      assert t.pending == s.pending == {};
    }
  }

  lemma {:induction false} RunSound(steps: seq<Step>)
    ensures Sound(RunFrom(INITIAL, steps))
  {
    if steps != [] {
      hide Sound, After;
      RunSound(steps[..|steps| - 1]);
      SoundStep(RunFrom(INITIAL, steps[..|steps| - 1]), steps[|steps| - 1]);
    }
  }

  /** Nothing is admitted once the scope is sealed, and what was aborted stays so. */
  lemma {:induction false} SealedAdmitsNothing(s: State, steps: seq<Step>)
    requires Sound(s) && s.sealed
    ensures var t := RunFrom(s, steps);
            && Sound(t) && t.sealed && |t.calls| == |s.calls|
            && forall i :: 0 <= i < |s.calls| && s.calls[i].aborted ==> t.calls[i].aborted
  {
    if steps != [] {
      var before, last := RunFrom(s, steps[..|steps| - 1]), steps[|steps| - 1];
      SealedAdmitsNothing(s, steps[..|steps| - 1]);
      hide Sound, RunFrom;
      SoundStep(before, last);
    }
  }

  /** No call is forgotten, and one whose signal was aborted, by its caller or by a shutdown, stays aborted. */
  lemma {:induction false} AbortedStays(s: State, steps: seq<Step>)
    ensures var t := RunFrom(s, steps);
            |s.calls| <= |t.calls| && forall i :: 0 <= i < |s.calls| && s.calls[i].aborted ==> t.calls[i].aborted
  {
    if steps != [] {
      AbortedStays(s, steps[..|steps| - 1]);
      AbortedStep(RunFrom(s, steps[..|steps| - 1]), steps[|steps| - 1]);
      hide RunFrom, After;
    }
  }

  lemma AbortedStep(s: State, step: Step)
    ensures var t := After(s, step);
            |s.calls| <= |t.calls| && forall i :: 0 <= i < |s.calls| && s.calls[i].aborted ==> t.calls[i].aborted
  {
  }

  /** A call whose caller had aborted it before is admitted aborted, and so it stays. */
  lemma AbortedBeforehand(s: State, steps: seq<Step>)
    requires !s.sealed
    ensures var t := RunFrom(After(s, Invoke(true)), steps); |s.calls| < |t.calls| && t.calls[|s.calls|].aborted
  {
    AbortedStays(After(s, Invoke(true)), steps);
    hide RunFrom;
  }

  /**
   The shutdown protocol, over every interleaving: at a shutdown every admitted call whose body
   still runs has its controller in the set and aborted; no call is admitted afterwards; and when
   any shutdown has returned, no admitted call is left unfinished, then and ever after.
   */
  lemma {:induction false} ShutdownProtocol(before: seq<Step>, after: seq<Step>)
    ensures var s := After(RunFrom(INITIAL, before), Shutdown);
            var t := RunFrom(s, after);
            && (forall i :: 0 <= i < |s.calls| && s.calls[i].progress.Running? ==> i in s.controllers && s.calls[i].aborted)
            && |t.calls| == |s.calls|
            && (Done in t.drains ==> forall i :: 0 <= i < |t.calls| ==> t.calls[i].progress.Removed?)
  {
    RunSound(before);
    SoundStep(RunFrom(INITIAL, before), Shutdown);
    SealedAdmitsNothing(After(RunFrom(INITIAL, before), Shutdown), after);
    hide RunFrom, After;
  }

  /** How far the calls are from being removed. */
  function Remaining(calls: seq<Call>): nat {
    if calls == [] then 0
    else
      Remaining(calls[..|calls| - 1]) +
      match calls[|calls| - 1].progress
      case Running => 3
      case BodyDone => 2
      case Settled => 1
      case Removed => 0
  }

  lemma {:induction false} RemainingDrops(calls: seq<Call>, i: nat, call: Call)
    requires i < |calls| && !calls[i].progress.Removed?
    requires call.progress == if calls[i].progress.Running? then BodyDone else if calls[i].progress.BodyDone? then Settled else Removed
    ensures Remaining(calls[i := call]) == Remaining(calls) - 1
  {
    var n := |calls| - 1;
    if i == n {
      assert calls[i := call][..n] == calls[..n];
    } else {
      assert calls[i := call][..n] == calls[..n][i := call];
      RemainingDrops(calls[..n], i, call);
    }
  }

  /** If every body ends, as an aborted one should, a waiting shutdown returns. */
  lemma {:induction false} ShutdownCanReturn(s: State, d: nat) returns (steps: seq<Step>)
    requires Sound(s) && d < |s.drains|
    ensures var t := RunFrom(s, steps); |t.drains| == |s.drains| && t.drains[d] == Done
    decreases Remaining(s.calls)
  {
    if s.pending == {} {
      steps := [Resume(d)];
      assert [Resume(d)][..0] == [];
      if s.drains[d].Waiting? {
        forall i | i in s.drains[d].found ensures HasSettled(s.calls, i) {
          WaitedFor(s, d, i);
        }
      }
    } else {
      var i :| i in s.pending;
      var progress := s.calls[i].progress;
      var step := if progress.Running? then EndBody(i) else if progress.BodyDone? then Settle(i) else Remove(i);
      SoundStep(s, step);
      RemainingDrops(s.calls, i, After(s, step).calls[i]);
      var rest := ShutdownCanReturn(After(s, step), d);
      steps := [step] + rest;
      RunSplits(s, [step], rest);
      assert [step][..0] == [];
    }
  }

  lemma WaitedFor(s: State, d: nat, i: nat)
    requires Sound(s) && s.pending == {} && d < |s.drains| && s.drains[d].Waiting? && i in s.drains[d].found
    ensures HasSettled(s.calls, i)
  {
  }

  lemma {:induction false} RunSplits(s: State, first: seq<Step>, rest: seq<Step>)
    ensures RunFrom(s, first + rest) == RunFrom(RunFrom(s, first), rest)
    decreases |rest|
  {
    if rest == [] {
      assert first + rest == first;
    } else {
      hide After;
      var n := |rest| - 1;
      assert (first + rest)[..|first + rest| - 1] == first + rest[..n];
      RunSplits(s, first, rest[..n]);
    }
  }

  // ---------------------------------------------------------------- the router

  /** The scope and the router's controllers; every method is one step. */
  class WorkerRouter {
    var calls: seq<Call>
    var controllers: set<nat>
    var pending: set<nat>
    var sealed: bool
    var drains: seq<Drain>

    function View(): State
      reads this
    {
      State(calls, controllers, pending, sealed, drains)
    }

    constructor ()
      ensures View() == INITIAL && Sound(View())
    {
      calls, controllers, pending, sealed, drains := [], {}, {}, false, [];
    }

    /** invokeForWorker through AsyncWorkScope.run: the rejection of a sealed scope is synchronous. */
    method InvokeForWorker(upstreamAborted: bool) returns (admitted: bool)
      requires Sound(View())
      modifies this
      ensures View() == After(old(View()), Invoke(upstreamAborted)) && Sound(View())
      ensures admitted <==> !old(sealed)
      ensures !admitted ==> View() == old(View())
      ensures admitted ==>
                && calls == old(calls) + [Call(Running, upstreamAborted)]
                && controllers == old(controllers) + {|old(calls)|} && pending == old(pending) + {|old(calls)|}
                && drains == old(drains) && !sealed
    {
      SoundStep(View(), Invoke(upstreamAborted));
      if sealed {
        return false;
      }
      var call := |calls|;
      pending := pending + {call};
      calls := calls + [Call(Running, upstreamAborted)];
      controllers := controllers + {call};
      admitted := true;
    }

    /** The caller's own signal. */
    method AbortUpstream(i: nat)
      requires Sound(View())
      modifies this
      ensures View() == After(old(View()), Upstream(i)) && Sound(View())
    {
      SoundStep(View(), Upstream(i));
      if i in controllers {
        calls := calls[i := calls[i].(aborted := true)];
      }
    }

    /** The finally block of an admitted call. */
    method EndCall(i: nat)
      requires Sound(View())
      modifies this
      ensures View() == After(old(View()), EndBody(i)) && Sound(View())
    {
      SoundStep(View(), EndBody(i));
      if i in controllers {
        controllers := controllers - {i};
        calls := calls[i := calls[i].(progress := BodyDone)];
      }
    }

    /** The callback that forgets a settled promise. */
    method Forget(i: nat)
      requires Sound(View())
      modifies this
      ensures View() == After(old(View()), Remove(i)) && Sound(View())
    {
      SoundStep(View(), Remove(i));
      if i in pending && calls[i].progress.Settled? {
        pending := pending - {i};
        calls := calls[i := calls[i].(progress := Removed)];
      }
    }

    /** shutdown up to its first await: seal, abort every controller, enter the drain loop. */
    method BeginShutdown()
      requires Sound(View())
      modifies this
      ensures View() == After(old(View()), Shutdown) && Sound(View())
    {
      SoundStep(View(), Shutdown);
      sealed := true;
      ghost var before := calls;
      var left := controllers;
      while left != {}
        invariant left <= controllers == old(controllers) && pending == old(pending) && sealed && drains == old(drains)
        invariant |calls| == |before|
        invariant forall i :: 0 <= i < |calls| ==>
                    calls[i] == if i in controllers && i !in left then before[i].(aborted := true) else before[i]
        decreases left
      {
        var i :| i in left;
        calls := calls[i := calls[i].(aborted := true)];
        left := left - {i};
      }
      assert calls == AllAborted(before, controllers);
      drains := drains + [if pending == {} then Done else Waiting(pending)];
    }

    /** The drain loop when everything it found has settled. */
    method ResumeDrain(d: nat)
      requires Sound(View()) && d < |drains| && drains[d].Waiting?
      requires forall i :: i in drains[d].found ==> HasSettled(calls, i)
      modifies this
      ensures View() == After(old(View()), Resume(d)) && Sound(View())
    {
      SoundStep(View(), Resume(d));
      drains := drains[d := if pending == {} then Done else Waiting(pending)];
    }
  }
}
