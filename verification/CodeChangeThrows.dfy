/**
 Attempts of the code change loop that throw (packages/orchestration/src/code-change-loop-service.ts).
 */
module CodeChangeThrows {
  import opened Prelude
  import opened Utf16
  import opened CodeChangeLoop
  import opened CodeChangeAttempt
  import V = ValidationEvidence

  // ---------------------------------------------------------------- where nobody interferes

  /** Nobody interferes from this moment on. */
  ghost predicate Quiet(m: Moment, o: Outside) {
    forall n: nat :: n >= m.clock ==> o.env(n) == []
  }

  lemma {:induction false} QuietMoment(m: Moment, o: Outside, n: nat)
    requires Quiet(m, o)
    ensures Awaited(m, o, n).world == m.world
  {
    if n > 0 {
      QuietMoment(m, o, n - 1);
    }
  }

  /** Where nobody interferes, rejecting throws exactly if the task is closed or the approval was replaced. */
  lemma QuietRefusal(m: Moment, o: Outside, id: Text)
    requires Quiet(m, o)
    ensures Refused(m, o, id) <==> Open(m.world, id) && (!TaskOpen(m.world) || m.world.approvals[id].replaced)
    ensures Refused(m, o, id) ==> AfterRejection(m, o, id).world == m.world
  {
    hide Awaited, Quiet;
    QuietMoment(m, o, 1);
    QuietMoment(m, o, 2);
    QuietMoment(m, o, 3);
  }

  /**
   Without any race: a closed task, or a failed approval that was replaced, makes the first
   rejection throw, and every other approval of the batch stays as open as it was.
   */
  lemma QuietLeavesOpen(m: Moment, o: Outside, failed: Text, skipped: seq<Text>)
    requires Quiet(m, o) && Open(m.world, failed) && (!TaskOpen(m.world) || m.world.approvals[failed].replaced)
    ensures StopsAt(m, o, [failed] + skipped, 0, AfterRejection(m, o, failed)) && SomeRefused(m, o, [failed] + skipped)
    ensures AfterRejection(m, o, failed).world == m.world
  {
    hide Quiet, Refused, AfterRejection;
    QuietRefusal(m, o, failed);
    FirstRejection(m, o, [failed] + skipped);
    StopsHere(m, o, [failed] + skipped, 0);
  }

  /** Without interference the task's status can be changed exactly if the transition is allowed. */
  lemma QuietTransition(m: Moment, o: Outside, target: TaskStatus)
    requires Quiet(m, o)
    ensures TransitionRefused(m, o, target) <==> target !in Allowed(m.world.task)
  {
    hide Awaited, Quiet, Allowed;
    QuietMoment(m, o, 1);
    QuietMoment(m, o, 2);
  }

  lemma StaysQuiet(m: Moment, later: Moment, o: Outside)
    requires Quiet(m, o) && m.clock <= later.clock
    ensures Quiet(later, o)
  {
  }

  lemma QuietAwaited(m: Moment, o: Outside, n: nat)
    requires Quiet(m, o)
    ensures Awaited(m, o, n).world == m.world && Quiet(Awaited(m, o, n), o)
  {
    QuietMoment(m, o, n);
    hide Later;
    StaysQuiet(m, Awaited(m, o, n), o);
  }

  function ChosenOf(runs: seq<V.Run>, input: V.Input): seq<V.Run> {
    if runs == [] then []
    else
      var n := |runs| - 1;
      ChosenOf(runs[..n], input) + if V.Chosen(runs[n], input) then [runs[n]] else []
  }

  lemma {:induction false} ChosenOfMeans(runs: seq<V.Run>, input: V.Input)
    ensures forall r :: r in ChosenOf(runs, input) <==> r in runs && V.Chosen(r, input)
  {
    if runs != [] {
      hide V.Chosen;
      var n := |runs| - 1;
      ChosenOfMeans(runs[..n], input);
      assert runs == runs[..n] + [runs[n]];
    }
  }

  /** Every read has a view. */
  lemma ViewExists(w: World, env: Environment, k: nat, task: Text) returns (v: View)
    ensures IsView(v, w, env, k, task)
  {
    hide Later, Stable, V.Ambiguous, V.VerdictGiven;
    var input := Seen(w, env, k, task);
    var clean := Stable(w, env, k, task) && forall r :: V.IsNewest(r, input) ==> V.Verdict(r, input).None?;
    var selected := if Stable(w, env, k, task) then ChosenOf(input.runs, input) else [];
    v := View(input.runs, selected, if clean then [] else [ChangedMeanwhile], StateSeen(w, env, k, task));
    ChosenOfMeans(input.runs, input);
    forall r | V.Chosen(r, input)
      ensures r in input.runs
    {
      V.LatestIsHighest(input.runs, input.taskRunId, r.checkerId);
    }
    hide Seen, StateSeen, V.Chosen, V.IsNewest, V.Verdict, ChosenOf;
  }

  /** If every outcome is refused, finishing is. */
  lemma AlwaysRefused(e: Ending, o: Outside, task: Text, ids: seq<Text>)
    requires forall s :: TransitionRefused(Recorded(e, o), o, Target(s, e.next))
    ensures FinishRefused(e, o, task, ids)
  {
    hide TransitionRefused, Recorded, GateMoment, IsView, Target;
    var v := ViewExists(e.at.world, o.env, e.at.clock, task);
    FinishRefusedAt(e, o, task, ids, v);
  }

  lemma PlainFinish(e: Ending, o: Outside, task: Text, ids: seq<Text>)
    requires !e.status.Verified?
    ensures FinishRefused(e, o, task, ids) <==> TransitionRefused(Recorded(e, o), o, Target(e.status, e.next))
  {
  }

  /** If none is refused, finishing is not. */
  lemma NeverRefused(e: Ending, o: Outside, task: Text, ids: seq<Text>)
    requires forall s :: (s == e.status || e.status.Verified?) && !(e.status.Verified? && s.ApplyFailed?) ==>
               !TransitionRefused(Recorded(e, o), o, Target(s, e.next))
    ensures !FinishRefused(e, o, task, ids)
  {
    hide TransitionRefused, Recorded, GateMoment, IsView, Target, Vouches, CurrentFailure;
  }

  /**
   Without interference finishing throws exactly if the task is done or cancelled, or if it is
   ready for review and would have to be blocked.
   */
  lemma QuietFinish(e: Ending, o: Outside, task: Text, ids: seq<Text>)
    requires Quiet(e.at, o)
    ensures FinishRefused(e, o, task, ids) <==>
              !TaskOpen(e.at.world) || (e.at.world.task.ReadyForReview? && e.status.ApplyFailed? && !e.next.RepairRequired?)
  {
    hide Quiet, Awaited, IsView, TransitionRefused, FinishRefused;
    var recorded := Recorded(e, o);
    QuietAwaited(e.at, o, if Reads(e.status) then 11 else 1);
    QuietAwaited(GateMoment(e, o), o, 2);
    assert recorded.world == e.at.world;
    forall s ensures TransitionRefused(recorded, o, Target(s, e.next)) <==> Target(s, e.next) !in Allowed(e.at.world.task) {
      QuietTransition(recorded, o, Target(s, e.next));
    }
    if !TaskOpen(e.at.world) {
      AlwaysRefused(e, o, task, ids);
    } else if e.status.ApplyFailed? {
      PlainFinish(e, o, task, ids);
    } else {
      NeverRefused(e, o, task, ids);
    }
  }

  /** An attempt at nothing, without interference, throws exactly if its task is closed or not there. */
  lemma QuietNothing(m: Moment, o: Outside, task: Text)
    requires Quiet(m, o)
    ensures AttemptThrows(m, o, task, [], []) <==> !o.taskKnown(task) || !TaskOpen(m.world)
  {
    var begun := Begun(m, o, [], []);
    QuietBegun(m, o, [], []);
    hide Begun, Quiet, FinishRefused;
    NothingThrows(begun, o);
    QuietFinish(Ending(begun, NoChanges, NextAction.ReadyForReview), o, task, []);
    assert BatchThrows(m, o, task, [], []) <==> !o.taskKnown(task) by {
      hide Progress, Awaited;
    }
  }

  lemma QuietBegun(m: Moment, o: Outside, changeIds: seq<Text>, verificationIds: seq<Text>)
    requires Quiet(m, o)
    ensures Begun(m, o, changeIds, verificationIds).world == m.world && Quiet(Begun(m, o, changeIds, verificationIds), o)
  {
    hide Later;
    var first := Awaited(m, o, 1);
    var second := Awaited(first, o, |changeIds|);
    var third := Awaited(second, o, |verificationIds|);
    QuietMoment(m, o, 1);
    QuietMoment(first, o, |changeIds|);
    QuietMoment(second, o, |verificationIds|);
    QuietMoment(third, o, 1);
  }

  // ---------------------------------------------------------------- a cancelled task

  lemma CancelledAwaited(m: Moment, o: Outside, n: nat)
    requires m.world.task.Cancelled?
    ensures Awaited(m, o, n).world.task.Cancelled?
  {
    CancelledLater(m.world, o.env, m.clock, n);
  }

  lemma CancelledRefuses(m: Moment, o: Outside, s: Status, next: NextAction)
    requires m.world.task.Cancelled?
    ensures TransitionRefused(m, o, Target(s, next))
  {
    CancelledAwaited(m, o, 1);
  }

  /** Whatever happens: a task that is cancelled by the time the gate is recorded makes the attempt throw, even if all passed. */
  lemma CancelledInTime(m: Moment, o: Outside, task: Text, changeIds: seq<Text>, verificationIds: seq<Text>)
    requires GateMoment(EndingOf(Begun(m, o, changeIds, verificationIds), o, changeIds, verificationIds), o).world.task.Cancelled?
    ensures AttemptThrows(m, o, task, changeIds, verificationIds)
  {
    hide Begun, EndingOf, GateMoment, BatchThrows, FinishRefused, TransitionRefused, Awaited, Target;
    var e := EndingOf(Begun(m, o, changeIds, verificationIds), o, changeIds, verificationIds);
    CancelledAwaited(GateMoment(e, o), o, 2);
    forall s ensures TransitionRefused(Recorded(e, o), o, Target(s, e.next)) {
      CancelledRefuses(Recorded(e, o), o, s, e.next);
    }
    AlwaysRefused(e, o, task, verificationIds);
  }

  lemma CancelledExecution(m: Moment, o: Outside, id: Text)
    requires m.world.task.Cancelled?
    ensures Execute(m, o, id).0.world.task.Cancelled? && Execute(m, o, id).1.Threw?
  {
    hide Awaited;
    CancelledAwaited(m, o, 1);
    CancelledAwaited(Awaited(m, o, 1), o, 1);
  }

  lemma CancelledRejection(m: Moment, o: Outside, id: Text)
    requires m.world.task.Cancelled?
    ensures AfterRejection(m, o, id).world.task.Cancelled?
  {
    hide Awaited;
    CancelledAwaited(m, o, 1);
    CancelledAwaited(m, o, 2);
    CancelledAwaited(m, o, 3);
  }

  lemma {:induction false} CancelledRejections(m: Moment, o: Outside, ids: seq<Text>)
    requires m.world.task.Cancelled?
    ensures AfterRejections(m, o, ids).world.task.Cancelled?
  {
    if ids != [] {
      hide AfterRejection;
      CancelledRejections(m, o, ids[..|ids| - 1]);
      CancelledRejection(AfterRejections(m, o, ids[..|ids| - 1]), o, ids[|ids| - 1]);
    }
  }

  /** A task cancelled beforehand: nothing is executed, and the attempt throws whatever else happens. */
  lemma {:induction false} CancelledBefore(m: Moment, o: Outside, task: Text, changeIds: seq<Text>, verificationIds: seq<Text>)
    requires m.world.task.Cancelled?
    ensures AttemptThrows(m, o, task, changeIds, verificationIds)
  {
    hide Execute, AfterRejections, GateMoment;
    var begun := Begun(m, o, changeIds, verificationIds);
    CancelledBegun(m, o, changeIds, verificationIds);
    hide Begun, AttemptThrows, Awaited;
    var e := EndingOf(begun, o, changeIds, verificationIds);
    if changeIds != [] {
      CancelledStop(begun, o, changeIds, verificationIds, false);
    } else if verificationIds != [] {
      CancelledStop(begun, o, verificationIds, [], true);
    }
    assert e.at.world.task.Cancelled?;
    CancelledGate(e, o);
    CancelledInTime(m, o, task, changeIds, verificationIds);
  }

  lemma CancelledGate(e: Ending, o: Outside)
    requires e.at.world.task.Cancelled?
    ensures GateMoment(e, o).world.task.Cancelled?
  {
    hide Awaited;
    CancelledAwaited(e.at, o, if Reads(e.status) then 11 else 1);
  }

  lemma CancelledBegun(m: Moment, o: Outside, changeIds: seq<Text>, verificationIds: seq<Text>)
    requires m.world.task.Cancelled?
    ensures Begun(m, o, changeIds, verificationIds).world.task.Cancelled?
  {
    hide Awaited;
    var first := Awaited(m, o, 1);
    var second := Awaited(first, o, |changeIds|);
    CancelledAwaited(m, o, 1);
    CancelledAwaited(first, o, |changeIds|);
    CancelledAwaited(second, o, |verificationIds|);
    CancelledAwaited(Awaited(second, o, |verificationIds|), o, 1);
  }

  lemma CancelledStop(m: Moment, o: Outside, ids: seq<Text>, others: seq<Text>, verifying: bool)
    requires m.world.task.Cancelled? && ids != []
    ensures StopsFrom(m, o, ids, verifying, 0) == 0
    ensures AllRejected(m, o, ids, others, 0).world.task.Cancelled?
  {
    hide Execute, AfterRejections, Awaited;
    CancelledExecution(m, o, ids[0]);
    var failed := Execute(m, o, ids[0]).0;
    assert Progress(m, o, ids, 0) == m;
    CancelledRejections(failed, o, ids[0..] + others);
    CancelledAwaited(AfterRejections(failed, o, ids[0..] + others), o, 1);
  }

  // ---------------------------------------------------------------- a task that is ready for review

  predicate NoneReplaced(w: World, ids: seq<Text>) {
    forall i :: 0 <= i < |ids| && ids[i] in w.approvals ==> !w.approvals[ids[i]].replaced
  }

  /** Nobody interferes, and task and replacements are as they were. */
  ghost predicate Undisturbed(m: Moment, after: Moment, o: Outside) {
    && Quiet(after, o) && after.world.task == m.world.task
    && forall other :: other in after.world.approvals ==>
         other in m.world.approvals && after.world.approvals[other].replaced == m.world.approvals[other].replaced
  }

  lemma StillUndisturbed(m: Moment, between: Moment, after: Moment, o: Outside)
    requires Undisturbed(m, between, o) && Undisturbed(between, after, o)
    ensures Undisturbed(m, after, o)
  {
  }

  lemma UndisturbedUpdate(m: Moment, o: Outside, id: Text, approval: Approval)
    requires Quiet(m, o) && id in m.world.approvals && approval.replaced == m.world.approvals[id].replaced
    ensures var after := Awaited(Updated(m, id, approval), o, 1); Undisturbed(m, after, o)
  {
    StaysQuiet(m, Updated(m, id, approval), o);
    QuietAwaited(Updated(m, id, approval), o, 1);
  }

  lemma QuietRejection(m: Moment, o: Outside, id: Text)
    requires Quiet(m, o) && TaskOpen(m.world) && (id in m.world.approvals ==> !m.world.approvals[id].replaced)
    ensures !Refused(m, o, id) && Undisturbed(m, AfterRejection(m, o, id), o)
  {
    QuietRefusal(m, o, id);
    QuietAwaited(m, o, 1);
    QuietAwaited(m, o, 2);
    QuietAwaited(m, o, 3);
    hide Awaited;
    var row := Awaited(m, o, 3);
    if Open(m.world, id) {
      UndisturbedUpdate(row, o, id, row.world.approvals[id].(status := Rejected));
    }
  }

  lemma QuietExecution(m: Moment, o: Outside, id: Text)
    requires Quiet(m, o)
    ensures Undisturbed(m, Execute(m, o, id).0, o)
  {
    QuietAwaited(m, o, 1);
    var read := Awaited(m, o, 1);
    QuietAwaited(read, o, 1);
    hide Awaited;
    var claim := Awaited(read, o, 1);
    if id in claim.world.approvals {
      UndisturbedUpdate(claim, o, id, claim.world.approvals[id].(claimed := true));
    }
  }

  /** An approved approval of the task. */
  predicate ApprovedFor(w: World, id: Text, task: Text) {
    && id in w.approvals && w.approvals[id].taskRunId == task
    && (w.approvals[id].status == Approved || w.approvals[id].status == AlwaysApproved)
  }

  /**
   A batch is loaded exactly if the task is known and, when each is looked up in turn, every change is an
   approved patch or write of the task and every check an approved command of it.
   */
  lemma LoadsExact(m: Moment, o: Outside, task: Text, changeIds: seq<Text>, verificationIds: seq<Text>)
    ensures LoadsBoth(m, o, task, changeIds, verificationIds) <==>
            && o.taskKnown(task)
            && (forall i :: 0 <= i < |changeIds| ==>
                  var w := Awaited(Awaited(m, o, 1), o, i + 1).world;
                  && ApprovedFor(w, changeIds[i], task)
                  && (w.approvals[changeIds[i]].actionType == Lit("file_patch") || w.approvals[changeIds[i]].actionType == Lit("file_write")))
            && (forall i :: 0 <= i < |verificationIds| ==>
                  var w := Awaited(Awaited(Awaited(m, o, 1), o, |changeIds|), o, i + 1).world;
                  && ApprovedFor(w, verificationIds[i], task)
                  && w.approvals[verificationIds[i]].actionType == Lit("shell"))
  {
    hide Lit, Awaited;
    var first, second := Awaited(m, o, 1), Awaited(Awaited(m, o, 1), o, |changeIds|);
    forall i: nat, id: Text
      ensures Loadable(first, o, i, id, task, CHANGES) <==>
              var w := Awaited(first, o, i + 1).world;
              ApprovedFor(w, id, task) && (w.approvals[id].actionType == Lit("file_patch") || w.approvals[id].actionType == Lit("file_write"))
      ensures Loadable(second, o, i, id, task, CHECKS) <==>
              var w := Awaited(second, o, i + 1).world; ApprovedFor(w, id, task) && w.approvals[id].actionType == Lit("shell")
    {
    }
    hide Loadable, ApprovedFor;
  }

  /**
   Where nobody interferes, an approved approval of an open task that was neither claimed nor replaced is
   claimed if the runner gets that far, and then it is executed; otherwise nothing is, and the store is as it was.
   */
  lemma QuietExecutionExact(m: Moment, o: Outside, id: Text)
    requires Quiet(m, o)
    ensures var (after, e) := Execute(m, o, id);
            if && id in m.world.approvals && TaskOpen(m.world)
               && (m.world.approvals[id].status == Approved || m.world.approvals[id].status == AlwaysApproved)
               && !m.world.approvals[id].claimed && !m.world.approvals[id].replaced && o.admits(m.clock + 2)
            then
              && e == o.executions(m.clock + 3)
              && after.world == m.world.(approvals := m.world.approvals[id := m.world.approvals[id].(claimed := true)])
            else e == Threw(false) && after.world == m.world
  {
    QuietAwaited(m, o, 1);
    var read := Awaited(m, o, 1);
    QuietAwaited(read, o, 1);
    var claim := Awaited(read, o, 1);
    if id in m.world.approvals {
      var claimed := Updated(claim, id, claim.world.approvals[id].(claimed := true));
      StaysQuiet(m, claimed, o);
      QuietAwaited(claimed, o, 1);
    }
    hide Later, Quiet;
  }

  /** And a rejection rejects its approval, if that is open, its task is too and it was not replaced; otherwise the store is as it was. */
  lemma QuietRejectionExact(m: Moment, o: Outside, id: Text)
    requires Quiet(m, o)
    ensures AfterRejection(m, o, id).world ==
            if && id in m.world.approvals && TaskOpen(m.world) && m.world.approvals[id].status in {Pending, Approved, AlwaysApproved}
               && !m.world.approvals[id].claimed && !m.world.approvals[id].replaced
            then m.world.(approvals := m.world.approvals[id := m.world.approvals[id].(status := Rejected)])
            else m.world
  {
    QuietAwaited(m, o, 1);
    QuietAwaited(m, o, 2);
    QuietAwaited(m, o, 3);
    var row := Awaited(m, o, 3);
    if id in m.world.approvals {
      var rejected := Updated(row, id, row.world.approvals[id].(status := Rejected));
      StaysQuiet(m, rejected, o);
      QuietAwaited(rejected, o, 1);
    }
    hide Later, Quiet;
  }

  lemma {:induction false} QuietRejections(m: Moment, o: Outside, ids: seq<Text>)
    requires Quiet(m, o) && TaskOpen(m.world) && NoneReplaced(m.world, ids)
    ensures NoneRefused(m, o, ids, |ids|) && Undisturbed(m, AfterRejections(m, o, ids), o)
  {
    if ids != [] {
      hide Quiet, Refused, AfterRejection, NoneRefused;
      var n := |ids| - 1;
      var front := ids[..n];
      QuietRejections(m, o, front);
      var before := AfterRejections(m, o, front);
      QuietRejection(before, o, ids[n]);
      StillUndisturbed(m, before, AfterRejections(m, o, ids), o);
      OneMoreUnrefused(m, o, ids);
    }
  }

  lemma {:induction false} OneMoreUnrefused(m: Moment, o: Outside, ids: seq<Text>)
    requires ids != []
    requires var n := |ids| - 1; NoneRefused(m, o, ids[..n], n) && !Refused(AfterRejections(m, o, ids[..n]), o, ids[n])
    ensures NoneRefused(m, o, ids, |ids|)
  {
    hide Refused, AfterRejections;
    var n := |ids| - 1;
    var front := ids[..n];
    forall j: nat | j < n
      ensures !Refused(AfterRejections(m, o, ids[..j]), o, ids[j])
    {
      assert front[..j] == ids[..j] && front[j] == ids[j];
    }
  }

  /**
   Without any race: the first change of a task that is ready for review fails for another reason
   than a mismatch. Every rejection succeeds, and only then the attempt throws, because the task
   may not become blocked.
   */
  lemma ReviewedTaskThrows(m: Moment, o: Outside, task: Text, changeIds: seq<Text>, verificationIds: seq<Text>)
    requires Quiet(m, o) && m.world.task.ReadyForReview? && NoneReplaced(m.world, changeIds + verificationIds)
    requires LoadsBoth(m, o, task, changeIds, verificationIds) && changeIds != []
    requires Execute(Begun(m, o, changeIds, verificationIds), o, changeIds[0]).1 == Threw(false)
    ensures !BatchThrows(m, o, task, changeIds, verificationIds)
    ensures AttemptThrows(m, o, task, changeIds, verificationIds)
  {
    var begun, batch := Begun(m, o, changeIds, verificationIds), changeIds + verificationIds;
    QuietBegun(m, o, changeIds, verificationIds);
    QuietExecution(begun, o, changeIds[0]);
    var failed := Execute(begun, o, changeIds[0]).0;
    hide Begun, LoadsBoth, Execute;
    assert changeIds[0..] + verificationIds == batch;
    QuietRejections(failed, o, batch);
    RejectionsResolve(failed, o, batch);
    hide NoneRefused, SomeRefused, NoneReplaced, AfterRejections, Quiet;
    FailsFirst(begun, o, changeIds);
    ApplyThrowsAt(begun, o, changeIds, verificationIds, 0);
    StopsAtFirst(begun, o, changeIds, false, 0, 0);
    QuietAwaited(AfterRejections(failed, o, batch), o, 1);
    hide Awaited, FinishRefused, FirstFails, NoneFails;
    QuietFinish(EndingOf(begun, o, changeIds, verificationIds), o, task, verificationIds);
  }

  lemma FailsFirst(m: Moment, o: Outside, ids: seq<Text>)
    requires ids != [] && Execute(m, o, ids[0]).1.Threw?
    ensures FirstFails(m, o, ids, 0, false) && ExecutionOf(m, o, ids, 0) == Execute(m, o, ids[0]).1 && Progress(m, o, ids, 0) == m
  {
    hide Execute;
  }

  // ---------------------------------------------------------------- a run that leaves an approval open

  const TASK: Text := Lit("task")
  const CHANGE: Text := Lit("change")
  const CHECK: Text := Lit("check")

  function TwoApprovals(task: TaskStatus): World {
    World(task, map[CHANGE := Approval(TASK, Lit("file_patch"), Approved, false, 1, false),
                    CHECK := Approval(TASK, Lit("shell"), Approved, false, 1, false)],
      [], map[], [], None, [], [])
  }

  /** Someone closes the task while the change is being executed; nothing else happens. */
  function ClosedMeanwhile(): Outside {
    Outside((n: nat) => if n == 4 then [SetTask(Cancelled)] else [], (n: nat) => true, (n: nat) => Ran(Some(0)), (t: Text) => true)
  }

  lemma {:induction false} OpenUntil(at: nat, n: nat)
    requires at + n <= 4
    ensures Awaited(Moment(TwoApprovals(Running), at), ClosedMeanwhile(), n) == Moment(TwoApprovals(Running), at + n)
  {
    if n > 0 {
      OpenUntil(at, n - 1);
    }
  }

  /** The facts of the two approvals. */
  lemma TwoApprovalsOpen(task: TaskStatus)
    ensures var w := TwoApprovals(task);
            && w.task == task && CHANGE != CHECK && Open(w, CHANGE)
            && CHANGE in w.approvals && w.approvals[CHANGE] == Approval(TASK, Lit("file_patch"), Approved, false, 1, false)
            && CHECK in w.approvals && w.approvals[CHECK] == Approval(TASK, Lit("shell"), Approved, false, 1, false)
  {
    assert |CHANGE| != |CHECK|;
  }

  lemma ClosedAfter()
    ensures var m, o := Moment(TwoApprovals(Running), 4), ClosedMeanwhile();
            Awaited(m, o, 1) == Moment(TwoApprovals(Cancelled), 5) && Quiet(Moment(TwoApprovals(Cancelled), 5), o)
  {
    var o := ClosedMeanwhile();
    assert o.env(4) == [SetTask(Cancelled)] && [SetTask(Cancelled)][..0] == [];
    NoneLater(TwoApprovals(Running), o.env, 4);
    assert ApplyAll(TwoApprovals(Running), o.env(4)) == Apply(TwoApprovals(Running), SetTask(Cancelled));
  }

  lemma ChangeFails()
    ensures var m, o := Moment(TwoApprovals(Running), 4), ClosedMeanwhile();
            Execute(m, o, CHANGE) == (Moment(TwoApprovals(Cancelled), 6), Threw(false))
  {
    ClosedAfter();
    hide Quiet;
    QuietMoment(Moment(TwoApprovals(Cancelled), 5), ClosedMeanwhile(), 1);
    assert |CHANGE| != |CHECK|;
    hide Later;
  }

  lemma BothLoad()
    ensures var m, o := Moment(TwoApprovals(Running), 0), ClosedMeanwhile();
            LoadsBoth(m, o, TASK, [CHANGE], [CHECK]) && Begun(m, o, [CHANGE], [CHECK]) == Moment(TwoApprovals(Running), 4)
  {
    var m, o := Moment(TwoApprovals(Running), 0), ClosedMeanwhile();
    OpenUntil(0, 1);
    OpenUntil(1, 1);
    OpenUntil(2, 1);
    OpenUntil(3, 1);
    ChangeLoads();
    CheckLoads();
    hide Awaited, TwoApprovals, TASK, CHANGE, CHECK, CHANGES, CHECKS, Lit, Loads;
    assert |[CHANGE]| == 1 && |[CHECK]| == 1;
  }

  lemma ChangeLoads()
    ensures Loads(Moment(TwoApprovals(Running), 1), ClosedMeanwhile(), [CHANGE], TASK, CHANGES)
  {
    OpenUntil(1, 1);
    TwoApprovalsOpen(Running);
    assert Lit("file_patch") in CHANGES;
    hide Awaited, TwoApprovals, TASK, CHANGE, CHECK, CHANGES, Lit, ClosedMeanwhile;
    OneLoads(Moment(TwoApprovals(Running), 1), ClosedMeanwhile(), CHANGE, TASK, CHANGES);
  }

  lemma CheckLoads()
    ensures Loads(Moment(TwoApprovals(Running), 2), ClosedMeanwhile(), [CHECK], TASK, CHECKS)
  {
    OpenUntil(2, 1);
    TwoApprovalsOpen(Running);
    assert Lit("shell") in CHECKS;
    hide Awaited, TwoApprovals, TASK, CHANGE, CHECK, CHECKS, Lit, ClosedMeanwhile;
    OneLoads(Moment(TwoApprovals(Running), 2), ClosedMeanwhile(), CHECK, TASK, CHECKS);
  }

  lemma OneLoads(m: Moment, o: Outside, id: Text, task: Text, types: set<Text>)
    requires Loadable(m, o, 0, id, task, types)
    ensures Loads(m, o, [id], task, types)
  {
  }

  /** A run of one change and one check that throws and leaves the check approved, though it never ran. */
  lemma {:induction false} ClosedTaskThrows()
    ensures var m, o := Moment(TwoApprovals(Running), 0), ClosedMeanwhile();
            var failed := Execute(Begun(m, o, [CHANGE], [CHECK]), o, CHANGE).0;
            var end := AfterRejection(failed, o, CHANGE);
            && LoadsBoth(m, o, TASK, [CHANGE], [CHECK])
            && FirstFails(Begun(m, o, [CHANGE], [CHECK]), o, [CHANGE], 0, false)
            && StopsAt(failed, o, [CHANGE] + [CHECK], 0, end)
            && AttemptThrows(m, o, TASK, [CHANGE], [CHECK])
            && CHECK in end.world.approvals && end.world.approvals[CHECK].status == Approved && !end.world.approvals[CHECK].claimed
  {
    var m, o := Moment(TwoApprovals(Running), 0), ClosedMeanwhile();
    BothLoad();
    ChangeFails();
    ClosedAfter();
    TwoApprovalsOpen(Cancelled);
    hide TwoApprovals, ClosedMeanwhile, TASK, CHANGE, CHECK, Lit;
    var begun, failed := Moment(TwoApprovals(Running), 4), Moment(TwoApprovals(Cancelled), 6);
    StaysQuiet(Moment(TwoApprovals(Cancelled), 5), failed, o);
    QuietLeavesOpen(failed, o, CHANGE, [CHECK]);
    hide Begun, LoadsBoth, Execute, SomeRefused, StopsAt, AfterRejection, Quiet;
    assert FirstFails(begun, o, [CHANGE], 0, false);
    assert [CHANGE][0..] + [CHECK] == [CHANGE] + [CHECK];
    assert ApplyRefused(begun, o, [CHANGE], [CHECK], 0);
  }
}
