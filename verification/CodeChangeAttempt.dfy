/**
 One attempt of the code change loop (packages/orchestration/src/code-change-loop-service.ts).
 */
module CodeChangeAttempt {
  import opened Prelude
  import opened Utf16
  import opened CodeChangeLoop
  import V = ValidationEvidence

  // From loading approvals to the verdict, in a store that others change. A moment is a store and
  // a number of awaits behind it; every function below says at which moment a part of the attempt
  // ends, and the class does the same by assignments.

  datatype Execution = Threw(patchMismatch: bool) | Ran(exitCode: Option<int>)

  datatype Status = NoChanges | ApplyFailed | VerificationFailed | AppliedUnverified | Verified

  datatype NextAction = ReadyForReview | RepairRequired | Blocked

  /** `results` are the exit codes of the verification approvals that ran, -1 standing for none. */
  datatype Attempt = Attempt(status: Status, nextAction: NextAction, applied: seq<Text>, results: seq<int>)

  /** When the read of an attempt began, and what it found. */
  datatype Reading = Reading(start: World, clock: nat, view: View)

  datatype LoopError = NotFound(id: Text) | WrongTask(id: Text) | WrongType(id: Text) | NotApproved(id: Text) | Locked
    | InvalidTransition(from: TaskStatus, to: TaskStatus) | StateConflict

  /** The task's status could not be changed. */
  predicate OfTransition(e: LoopError) {
    e.InvalidTransition? || e.StateConflict?
  }

  /**
   The world outside: what happens during each await, whether the runner gets as far as claiming
   an execution, how a claimed one ends, and which tasks there are.
   */
  datatype Outside = Outside(env: Environment, admits: nat -> bool, executions: nat -> Execution, taskKnown: Text -> bool)

  datatype Moment = Moment(world: World, clock: nat)

  function Awaited(m: Moment, o: Outside, n: nat): Moment {
    Moment(Later(m.world, o.env, m.clock, n), m.clock + n)
  }

  function Updated(m: Moment, id: Text, approval: Approval): Moment {
    m.(world := m.world.(approvals := m.world.approvals[id := approval]))
  }

  // ---------------------------------------------------------------- loading

  /** At the i-th look the approval exists, belongs to the task, has a fitting type and is approved. */
  predicate Loadable(m: Moment, o: Outside, i: nat, id: Text, task: Text, types: set<Text>) {
    var at := Awaited(m, o, i + 1).world;
    id in at.approvals && at.approvals[id].taskRunId == task && at.approvals[id].actionType in types &&
    Approving(at.approvals[id].status)
  }

  predicate Loads(m: Moment, o: Outside, ids: seq<Text>, task: Text, types: set<Text>) {
    forall i :: 0 <= i < |ids| ==> Loadable(m, o, i, ids[i], task, types)
  }

  // ---------------------------------------------------------------- executing

  function ExitCode(e: Execution): int {
    if e.Ran? && e.exitCode.Some? then e.exitCode.value else -1
  }

  /** nextActionForApplyFailure. */
  function NextAfter(e: Execution): NextAction {
    if e.Threw? && e.patchMismatch then RepairRequired else NextAction.Blocked
  }

  /** How many verification approvals ran and passed, before the first that did not. */
  function PassedFirst(results: seq<int>): (n: nat)
    ensures n <= |results|
  {
    if results == [] || results[0] != 0 then 0 else 1 + PassedFirst(results[1..])
  }

  lemma {:induction false} AllPassed(results: seq<int>, more: seq<int>)
    requires forall i :: 0 <= i < |results| ==> results[i] == 0
    ensures PassedFirst(results) == |results|
    ensures more != [] && more[0] != 0 ==> PassedFirst(results + more) == |results|
  {
    if results == [] {
      assert results + more == more;
    } else {
      assert (results + more)[1..] == results[1..] + more;
      AllPassed(results[1..], more);
    }
  }

  /** claimExecution succeeds: nothing but the approval that was read has been decided since. */
  predicate Claims(w: World, id: Text, revision: nat) {
    && id in w.approvals && TaskOpen(w)
    && w.approvals[id].revision == revision && Approving(w.approvals[id].status)
    && !w.approvals[id].claimed && !w.approvals[id].replaced
  }

  /** executeApproved: the runner reads the approval, claims the execution, and only then executes. */
  function Execute(m: Moment, o: Outside, id: Text): (Moment, Execution) {
    var read := Awaited(m, o, 1);
    if id !in read.world.approvals || !Approving(read.world.approvals[id].status) then (read, Threw(false))
    else
      var claim := Awaited(read, o, 1);
      if !o.admits(claim.clock) || !Claims(claim.world, id, read.world.approvals[id].revision) then (claim, Threw(false))
      else
        var done := Awaited(Updated(claim, id, claim.world.approvals[id].(claimed := true)), o, 1);
        (done, o.executions(done.clock))
  }

  predicate Fails(e: Execution, verifying: bool) {
    e.Threw? || (verifying && ExitCode(e) != 0)
  }

  /** The moment after the first `n` executions. */
  function Progress(m: Moment, o: Outside, ids: seq<Text>, n: nat): Moment
    requires n <= |ids|
  {
    if n == 0 then m else Execute(Progress(m, o, ids, n - 1), o, ids[n - 1]).0
  }

  function ExecutionOf(m: Moment, o: Outside, ids: seq<Text>, n: nat): Execution
    requires n < |ids|
  {
    Execute(Progress(m, o, ids, n), o, ids[n]).1
  }

  /** The n-th execution is the first that fails. */
  predicate FirstFails(m: Moment, o: Outside, ids: seq<Text>, n: nat, verifying: bool) {
    && n < |ids| && Fails(ExecutionOf(m, o, ids, n), verifying)
    && forall k: nat :: k < n ==> !Fails(ExecutionOf(m, o, ids, k), verifying)
  }

  predicate NoneFails(m: Moment, o: Outside, ids: seq<Text>, verifying: bool) {
    forall k: nat :: k < |ids| ==> !Fails(ExecutionOf(m, o, ids, k), verifying)
  }

  // ---------------------------------------------------------------- rejecting what is left

  /** rejectIfUnresolved has something to reject. */
  predicate Open(w: World, id: Text) {
    id in w.approvals && !w.approvals[id].claimed && Unresolved(w.approvals[id].status)
  }

  /** What `decide` refuses on its own read. */
  predicate Locks(w: World, id: Text) {
    id !in w.approvals || w.approvals[id].replaced || w.approvals[id].claimed ||
    w.approvals[id].status.Executed? || w.approvals[id].status.Rejected?
  }

  /** What its conditional update then misses. */
  predicate Misses(read: World, w: World, id: Text)
    requires id in read.approvals
  {
    id !in w.approvals || w.approvals[id].revision != read.approvals[id].revision ||
    w.approvals[id].status != read.approvals[id].status || w.approvals[id].replaced || !TaskOpen(w)
  }

  /** Rejecting throws: open at the first look, and locked at the second or missed at the third. */
  predicate Refused(m: Moment, o: Outside, id: Text) {
    var latest, existing, row := Awaited(m, o, 1).world, Awaited(m, o, 2).world, Awaited(m, o, 3).world;
    Open(latest, id) && (Locks(existing, id) || Misses(existing, row, id))
  }

  /** The moment at which rejecting ends, whether it throws or returns. */
  function AfterRejection(m: Moment, o: Outside, id: Text): Moment {
    if !Open(Awaited(m, o, 1).world, id) then Awaited(m, o, 1)
    else if Locks(Awaited(m, o, 2).world, id) then Awaited(m, o, 2)
    else if Misses(Awaited(m, o, 2).world, Awaited(m, o, 3).world, id) then Awaited(m, o, 3)
    else
      var row := Awaited(m, o, 3);
      Awaited(Updated(row, id, row.world.approvals[id].(status := Rejected)), o, 1)
  }

  function AfterRejections(m: Moment, o: Outside, ids: seq<Text>): Moment {
    if ids == [] then m else AfterRejection(AfterRejections(m, o, ids[..|ids| - 1]), o, ids[|ids| - 1])
  }

  /** The j-th rejection throws, and none before it. */
  predicate FirstRefused(m: Moment, o: Outside, ids: seq<Text>, j: nat) {
    && j < |ids| && Refused(AfterRejections(m, o, ids[..j]), o, ids[j])
    && forall k: nat :: k < j ==> !Refused(AfterRejections(m, o, ids[..k]), o, ids[k])
  }

  /** The rejections end at the j-th, which throws. */
  predicate StopsAt(m: Moment, o: Outside, ids: seq<Text>, j: nat, end: Moment) {
    FirstRefused(m, o, ids, j) && end == AfterRejections(m, o, ids[..j + 1])
  }

  predicate SomeRefused(m: Moment, o: Outside, ids: seq<Text>) {
    exists j: nat :: j < |ids| && Refused(AfterRejections(m, o, ids[..j]), o, ids[j])
  }

  // ---------------------------------------------------------------- when an attempt throws

  const CHANGES: set<Text> := {Lit("file_patch"), Lit("file_write")}
  const CHECKS: set<Text> := {Lit("shell")}

  /** When the executions begin, if everything could be loaded. */
  function Begun(m: Moment, o: Outside, changeIds: seq<Text>, verificationIds: seq<Text>): Moment {
    Awaited(Awaited(Awaited(Awaited(m, o, 1), o, |changeIds|), o, |verificationIds|), o, 1)
  }

  predicate LoadsBoth(m: Moment, o: Outside, task: Text, changeIds: seq<Text>, verificationIds: seq<Text>) {
    && o.taskKnown(task)
    && Loads(Awaited(m, o, 1), o, changeIds, task, CHANGES)
    && Loads(Awaited(Awaited(m, o, 1), o, |changeIds|), o, verificationIds, task, CHECKS)
  }

  /** After the n-th execution failed, one of the rejections that follow throws. */
  predicate ApplyRefused(m: Moment, o: Outside, changeIds: seq<Text>, verificationIds: seq<Text>, n: nat)
    requires n < |changeIds|
  {
    SomeRefused(Execute(Progress(m, o, changeIds, n), o, changeIds[n]).0, o, changeIds[n..] + verificationIds)
  }

  /** A failed change is followed by rejections of which one throws. */
  ghost predicate ApplyThrows(m: Moment, o: Outside, changeIds: seq<Text>, verificationIds: seq<Text>) {
    exists n: nat :: FirstFails(m, o, changeIds, n, false) && ApplyRefused(m, o, changeIds, verificationIds, n)
  }

  ghost predicate VerifyThrows(m: Moment, o: Outside, ids: seq<Text>) {
    exists n: nat :: FirstFails(m, o, ids, n, true) && ApplyRefused(m, o, ids, [], n)
  }

  /** A rejection after a failure is refused. */
  ghost predicate RejectionThrows(begun: Moment, o: Outside, changeIds: seq<Text>, verificationIds: seq<Text>) {
    || ApplyThrows(begun, o, changeIds, verificationIds)
    || (NoneFails(begun, o, changeIds, false) && VerifyThrows(Progress(begun, o, changeIds, |changeIds|), o, verificationIds))
  }

  /** runAttempt throws before it comes to finish: something cannot be loaded, or a rejection is refused. */
  ghost predicate BatchThrows(m: Moment, o: Outside, task: Text, changeIds: seq<Text>, verificationIds: seq<Text>) {
    || !LoadsBoth(m, o, task, changeIds, verificationIds)
    || RejectionThrows(Begun(m, o, changeIds, verificationIds), o, changeIds, verificationIds)
  }

  // ---------------------------------------------------------------- finishing

  /** Finishing begins at this moment, with what the executions amount to. */
  datatype Ending = Ending(at: Moment, status: Status, next: NextAction)

  /** The first execution from the n-th on that fails, or the end of the batch. */
  function StopsFrom(m: Moment, o: Outside, ids: seq<Text>, verifying: bool, n: nat): (k: nat)
    requires n <= |ids|
    ensures n <= k <= |ids|
    decreases |ids| - n
  {
    if n == |ids| || Fails(ExecutionOf(m, o, ids, n), verifying) then n else StopsFrom(m, o, ids, verifying, n + 1)
  }

  /** After the n-th execution failed and all that is left was rejected. */
  function AllRejected(m: Moment, o: Outside, changeIds: seq<Text>, verificationIds: seq<Text>, n: nat): Moment
    requires n < |changeIds|
  {
    Awaited(AfterRejections(Execute(Progress(m, o, changeIds, n), o, changeIds[n]).0, o, changeIds[n..] + verificationIds), o, 1)
  }

  /** The end of the second loop. */
  function CheckedEnding(m: Moment, o: Outside, ids: seq<Text>): Ending {
    var k := StopsFrom(m, o, ids, true, 0);
    if k < |ids| then Ending(AllRejected(m, o, ids, [], k), VerificationFailed, RepairRequired)
    else Ending(Progress(m, o, ids, k), if ids == [] then AppliedUnverified else Verified, NextAction.ReadyForReview)
  }

  function EndingOf(begun: Moment, o: Outside, changeIds: seq<Text>, verificationIds: seq<Text>): Ending {
    if changeIds == [] && verificationIds == [] then Ending(begun, NoChanges, NextAction.ReadyForReview)
    else
      var n := StopsFrom(begun, o, changeIds, false, 0);
      if n < |changeIds| then
        Ending(AllRejected(begun, o, changeIds, verificationIds, n), ApplyFailed, NextAfter(ExecutionOf(begun, o, changeIds, n)))
      else CheckedEnding(Progress(begun, o, changeIds, n), o, verificationIds)
  }

  predicate Reads(s: Status) {
    s.Verified? || s.VerificationFailed?
  }

  /** The moment at which the quality gate is recorded, right after the validation state was read if it is read. */
  function GateMoment(e: Ending, o: Outside): Moment {
    Awaited(e.at, o, if Reads(e.status) then 11 else 1)
  }

  /** What is left of a status: a verified attempt has to be vouched for by what was read, and by the gate. */
  function FinalStatus(s: Status, v: View, ids: seq<Text>, gate: World, task: Text): Status {
    if !s.Verified? then s
    else if Vouches(v, ids) then (if GatePasses(gate, task, v.state) then Verified else AppliedUnverified)
    else if CurrentFailure(v) then VerificationFailed
    else AppliedUnverified
  }

  /** The status the task is to get. */
  function Target(s: Status, next: NextAction): TaskStatus {
    match s
    case ApplyFailed => if next.RepairRequired? then QualityFailed else TaskStatus.Blocked
    case VerificationFailed => QualityFailed
    case _ => TaskStatus.ReadyForReview
  }

  /** setTaskRunStatus throws: not allowed from the status it reads, or another status stands where it writes. */
  predicate TransitionRefused(m: Moment, o: Outside, target: TaskStatus) {
    var read, row := Awaited(m, o, 1).world.task, Awaited(m, o, 2).world.task;
    target !in Allowed(read) || (read != target && row != read && row != target)
  }

  /** When the gate, the manifest and the attempt's step are recorded. */
  function Recorded(e: Ending, o: Outside): Moment {
    Awaited(GateMoment(e, o), o, 2)
  }

  /** The final change of the task's status throws. */
  ghost predicate FinishRefused(e: Ending, o: Outside, task: Text, ids: seq<Text>) {
    if !e.status.Verified? then TransitionRefused(Recorded(e, o), o, Target(e.status, e.next))
    else
      exists v :: IsView(v, e.at.world, o.env, e.at.clock, task) &&
        TransitionRefused(Recorded(e, o), o, Target(FinalStatus(e.status, v, ids, GateMoment(e, o).world, task), e.next))
  }

  /** runAttempt throws: before it comes to finish, or in the final change of the task's status. */
  ghost predicate AttemptThrows(m: Moment, o: Outside, task: Text, changeIds: seq<Text>, verificationIds: seq<Text>) {
    || BatchThrows(m, o, task, changeIds, verificationIds)
    || FinishRefused(EndingOf(Begun(m, o, changeIds, verificationIds), o, changeIds, verificationIds), o, task, verificationIds)
  }

  lemma {:induction false} StopsAtFirst(m: Moment, o: Outside, ids: seq<Text>, verifying: bool, n: nat, k: nat)
    requires n <= k && FirstFails(m, o, ids, k, verifying)
    ensures k < |ids| && StopsFrom(m, o, ids, verifying, n) == k
    decreases k - n
  {
    hide ExecutionOf;
    if n < k {
      StopsAtFirst(m, o, ids, verifying, n + 1, k);
    }
  }

  lemma {:induction false} StopsAtEnd(m: Moment, o: Outside, ids: seq<Text>, verifying: bool, n: nat)
    requires n <= |ids| && NoneFails(m, o, ids, verifying)
    ensures StopsFrom(m, o, ids, verifying, n) == |ids|
    decreases |ids| - n
  {
    hide ExecutionOf;
    if n < |ids| {
      StopsAtEnd(m, o, ids, verifying, n + 1);
    }
  }

  // ---------------------------------------------------------------- what the executions came to

  /** The first n executions ran. */
  predicate FirstRan(m: Moment, o: Outside, ids: seq<Text>, n: nat) {
    n <= |ids| && forall k: nat :: k < n ==> ExecutionOf(m, o, ids, k).Ran?
  }

  /** The first execution that did not run threw in this way. */
  ghost predicate StoppedBy(m: Moment, o: Outside, ids: seq<Text>, mismatch: bool) {
    exists n: nat :: n < |ids| && FirstRan(m, o, ids, n) && ExecutionOf(m, o, ids, n) == Threw(mismatch)
  }

  /** Every execution ran and exited with zero. */
  predicate AllExitedZero(m: Moment, o: Outside, ids: seq<Text>) {
    forall k: nat :: k < |ids| ==> ExecutionOf(m, o, ids, k) == Ran(Some(0))
  }

  lemma {:induction false} StopsMeans(m: Moment, o: Outside, ids: seq<Text>, verifying: bool, n: nat)
    requires n <= |ids|
    ensures var k := StopsFrom(m, o, ids, verifying, n);
            && (k < |ids| ==> Fails(ExecutionOf(m, o, ids, k), verifying))
            && forall i: nat :: n <= i < k ==> !Fails(ExecutionOf(m, o, ids, i), verifying)
    decreases |ids| - n
  {
    hide ExecutionOf, Fails;
    if n < |ids| && !Fails(ExecutionOf(m, o, ids, n), verifying) {
      StopsMeans(m, o, ids, verifying, n + 1);
    }
  }

  lemma ChangesStop(m: Moment, o: Outside, ids: seq<Text>)
    ensures var k := StopsFrom(m, o, ids, false, 0);
            && (k < |ids| <==> !FirstRan(m, o, ids, |ids|))
            && (k < |ids| ==> forall mismatch :: StoppedBy(m, o, ids, mismatch) <==> ExecutionOf(m, o, ids, k) == Threw(mismatch))
            && (k == |ids| ==> forall mismatch :: !StoppedBy(m, o, ids, mismatch))
  {
    hide ExecutionOf;
    StopsMeans(m, o, ids, false, 0);
    var k := StopsFrom(m, o, ids, false, 0);
    if k < |ids| {
      assert FirstRan(m, o, ids, k);
    }
  }

  lemma ChecksStop(m: Moment, o: Outside, ids: seq<Text>)
    ensures StopsFrom(m, o, ids, true, 0) == |ids| <==> AllExitedZero(m, o, ids)
  {
    hide ExecutionOf;
    StopsMeans(m, o, ids, true, 0);
  }

  /** The ending in terms of the executions. */
  lemma EndingMeans(begun: Moment, o: Outside, changeIds: seq<Text>, verificationIds: seq<Text>)
    ensures var e, checking := EndingOf(begun, o, changeIds, verificationIds), Progress(begun, o, changeIds, |changeIds|);
            var ran, passed := FirstRan(begun, o, changeIds, |changeIds|), AllExitedZero(checking, o, verificationIds);
            && (e.status.ApplyFailed? <==> !ran)
            && (e.status.ApplyFailed? && e.next.RepairRequired? <==> StoppedBy(begun, o, changeIds, true))
            && (e.status.ApplyFailed? && !e.next.RepairRequired? <==> StoppedBy(begun, o, changeIds, false))
            && (e.status.NoChanges? <==> changeIds == [] && verificationIds == [])
            && (e.status.VerificationFailed? ==> e.next.RepairRequired?)
            && (!e.status.VerificationFailed? && !e.status.ApplyFailed? ==> e.next.ReadyForReview?)
            && (e.status.ApplyFailed? ==> !e.next.ReadyForReview?)
            && (e.status.VerificationFailed? <==> ran && !passed)
            && (e.status.Verified? <==> ran && passed && verificationIds != [])
            && (e.status.Verified? ==> e.at == Progress(checking, o, verificationIds, |verificationIds|))
  {
    hide Execute, ExecutionOf, FirstRan, StoppedBy, AllExitedZero, AllRejected, StopsFrom;
    ChangesStop(begun, o, changeIds);
    StopsMeans(begun, o, changeIds, false, 0);
    ChecksStop(Progress(begun, o, changeIds, |changeIds|), o, verificationIds);
    var k := StopsFrom(begun, o, changeIds, false, 0);
    if k < |changeIds| {
      assert ExecutionOf(begun, o, changeIds, k).Threw?;
    }
  }

  lemma FinishRefusedAt(e: Ending, o: Outside, task: Text, ids: seq<Text>, v: View)
    requires e.status.Verified? ==> IsView(v, e.at.world, o.env, e.at.clock, task)
    ensures FinishRefused(e, o, task, ids) <==>
              TransitionRefused(Recorded(e, o), o, Target(FinalStatus(e.status, v, ids, GateMoment(e, o).world, task), e.next))
  {
    hide IsView, TransitionRefused, Recorded, GateMoment, Vouches, CurrentFailure;
    if e.status.Verified? && FinishRefused(e, o, task, ids) {
      var u :| IsView(u, e.at.world, o.env, e.at.clock, task) &&
        TransitionRefused(Recorded(e, o), o, Target(FinalStatus(e.status, u, ids, GateMoment(e, o).world, task), e.next));
      ViewsAgree(u, v, e.at.world, o.env, e.at.clock, task, ids);
    }
  }

  lemma ApplyThrowsAt(m: Moment, o: Outside, changeIds: seq<Text>, verificationIds: seq<Text>, n: nat)
    requires FirstFails(m, o, changeIds, n, false)
    ensures ApplyThrows(m, o, changeIds, verificationIds) <==> ApplyRefused(m, o, changeIds, verificationIds, n)
    ensures !NoneFails(m, o, changeIds, false)
  {
    hide ApplyRefused, Execute, Progress;
    forall k: nat | FirstFails(m, o, changeIds, k, false) ensures k == n {
      FirstFailsUnique(m, o, changeIds, false, n, k);
    }
  }

  lemma VerifyThrowsAt(m: Moment, o: Outside, ids: seq<Text>, n: nat)
    requires FirstFails(m, o, ids, n, true)
    ensures VerifyThrows(m, o, ids) <==> ApplyRefused(m, o, ids, [], n)
    ensures !NoneFails(m, o, ids, true)
  {
    hide ApplyRefused, Execute, Progress;
    forall k: nat | FirstFails(m, o, ids, k, true) ensures k == n {
      FirstFailsUnique(m, o, ids, true, n, k);
    }
  }

  lemma NoneThrows(m: Moment, o: Outside, changeIds: seq<Text>, verificationIds: seq<Text>)
    requires NoneFails(m, o, changeIds, false)
    ensures !ApplyThrows(m, o, changeIds, verificationIds)
  {
  }

  lemma NoneVerifyThrows(m: Moment, o: Outside, ids: seq<Text>)
    requires NoneFails(m, o, ids, true)
    ensures !VerifyThrows(m, o, ids)
  {
  }

  lemma NothingThrows(m: Moment, o: Outside)
    ensures !ApplyThrows(m, o, [], []) && !VerifyThrows(Progress(m, o, [], 0), o, [])
  {
    NoneThrows(m, o, [], []);
    NoneVerifyThrows(Progress(m, o, [], 0), o, []);
  }

  /** What an attempt that returns says of the executions. */
  predicate IsResult(a: Attempt, begun: Moment, o: Outside, changeIds: seq<Text>, verificationIds: seq<Text>) {
    if changeIds == [] && verificationIds == [] then a == Attempt(NoChanges, NextAction.ReadyForReview, [], [])
    else if a.status.ApplyFailed? then
      && FirstFails(begun, o, changeIds, |a.applied|, false)
      && a == Attempt(ApplyFailed, NextAfter(ExecutionOf(begun, o, changeIds, |a.applied|)), changeIds[..|a.applied|], [])
    else
      var checking := Progress(begun, o, changeIds, |changeIds|);
      && !a.status.NoChanges? && a.applied == changeIds && NoneFails(begun, o, changeIds, false)
      && |a.results| <= |verificationIds|
      && (forall i :: 0 <= i < |a.results| ==> a.results[i] == ExitCode(ExecutionOf(checking, o, verificationIds, i)))
      && (if NoneFails(checking, o, verificationIds, true) then
            |a.results| == |verificationIds| && (verificationIds == [] ==> a.status.AppliedUnverified?)
          else
            a.status.VerificationFailed? && a.nextAction.RepairRequired? &&
            FirstFails(checking, o, verificationIds, PassedFirst(a.results), true))
  }

  // ---------------------------------------------------------------- what each part keeps

  lemma StartSteady(w: World)
    ensures ApprovalsSteady(w, w)
  {
  }

  lemma StillSteady(u: World, v: World, w: World)
    requires ApprovalsSteady(u, v) && ApprovalsSteady(v, w)
    ensures ApprovalsSteady(u, w)
  {
  }

  lemma {:induction false} AwaitedSteady(m: Moment, o: Outside, n: nat)
    ensures ApprovalsSteady(m.world, Awaited(m, o, n).world)
  {
    hide ApprovalsSteady, ApplyAll;
    StartSteady(m.world);
    if n > 0 {
      AwaitedSteady(m, o, n - 1);
      var before := Later(m.world, o.env, m.clock, n - 1);
      ApplyAllApprovals(before, o.env(m.clock + n - 1));
      StillSteady(m.world, before, Later(m.world, o.env, m.clock, n));
    }
  }

  /** Waiting twice is waiting once for both. */
  lemma {:induction false} AwaitedTwice(m: Moment, o: Outside, a: nat, b: nat)
    ensures Awaited(Awaited(m, o, a), o, b) == Awaited(m, o, a + b)
    decreases b
  {
    hide ApplyAll;
    if b > 0 {
      AwaitedTwice(m, o, a, b - 1);
    }
  }

  lemma UpdatedSteady(m: Moment, id: Text, approval: Approval)
    requires id in m.world.approvals
    requires Resolved(m.world, id) ==> approval.claimed || !Unresolved(approval.status)
    ensures ApprovalsSteady(m.world, Updated(m, id, approval).world)
  {
  }

  /** An execution that is known to have run was claimed. */
  lemma ExecuteClaims(m: Moment, o: Outside, id: Text)
    ensures ApprovalsSteady(m.world, Execute(m, o, id).0.world)
    ensures Execute(m, o, id).1.Ran? ==> Resolved(Execute(m, o, id).0.world, id)
  {
    hide Awaited, ApprovalsSteady;
    var read := Awaited(m, o, 1);
    AwaitedSteady(m, o, 1);
    if id in read.world.approvals && Approving(read.world.approvals[id].status) {
      var claim := Awaited(read, o, 1);
      AwaitedSteady(read, o, 1);
      StillSteady(m.world, read.world, claim.world);
      if o.admits(claim.clock) && Claims(claim.world, id, read.world.approvals[id].revision) {
        var claimed := Updated(claim, id, claim.world.approvals[id].(claimed := true));
        UpdatedSteady(claim, id, claim.world.approvals[id].(claimed := true));
        StillSteady(m.world, claim.world, claimed.world);
        AwaitedSteady(claimed, o, 1);
        StillSteady(m.world, claimed.world, Awaited(claimed, o, 1).world);
        assert Resolved(claimed.world, id);
        SteadyAt(claimed.world, Awaited(claimed, o, 1).world, id);
      }
    }
  }

  lemma SteadyAt(v: World, w: World, id: Text)
    requires ApprovalsSteady(v, w)
    ensures Resolved(v, id) ==> Resolved(w, id)
    ensures id in v.approvals ==> id in w.approvals
  {
  }

  /** A rejection that does not throw leaves its approval resolved. */
  lemma RejectionResolves(m: Moment, o: Outside, id: Text)
    ensures ApprovalsSteady(m.world, AfterRejection(m, o, id).world)
    ensures id in m.world.approvals && !Refused(m, o, id) ==> Resolved(AfterRejection(m, o, id).world, id)
  {
    hide Awaited, ApprovalsSteady;
    AwaitedSteady(m, o, 1);
    AwaitedSteady(m, o, 2);
    AwaitedSteady(m, o, 3);
    var row := Awaited(m, o, 3);
    SteadyAt(m.world, Awaited(m, o, 1).world, id);
    if Open(Awaited(m, o, 1).world, id) && !Refused(m, o, id) {
      var rejected := Updated(row, id, row.world.approvals[id].(status := Rejected));
      UpdatedSteady(row, id, row.world.approvals[id].(status := Rejected));
      StillSteady(m.world, row.world, rejected.world);
      AwaitedSteady(rejected, o, 1);
      StillSteady(m.world, rejected.world, Awaited(rejected, o, 1).world);
      assert Resolved(rejected.world, id);
      SteadyAt(rejected.world, Awaited(rejected, o, 1).world, id);
    }
  }

  lemma FirstFailsUnique(m: Moment, o: Outside, ids: seq<Text>, verifying: bool, n: nat, k: nat)
    requires FirstFails(m, o, ids, n, verifying) && FirstFails(m, o, ids, k, verifying)
    ensures n == k
  {
  }

  // ---------------------------------------------------------------- the attempt

  class CodeChangeLoopService {
    const outside: Outside
    var world: World
    var clock: nat

    constructor (outside: Outside, world: World)
      ensures this.outside == outside && Now() == Moment(world, 0)
    {
      this.outside, this.world, clock := outside, world, 0;
    }

    function Now(): Moment
      reads this
    {
      Moment(world, clock)
    }

    method Await()
      modifies this
      ensures Now() == Awaited(old(Now()), outside, 1)
      ensures ApprovalsSteady(old(world), world)
    {
      AwaitedSteady(Now(), outside, 1);
      NoneLater(world, outside.env, clock);
      world := ApplyAll(world, outside.env(clock));
      clock := clock + 1;
    }

    /** The n-th await counted from the k-th, at which the store was `start`. */
    method AwaitSince(ghost start: World, ghost k: nat, ghost n: nat)
      requires world == Later(start, outside.env, k, n) && clock == k + n
      modifies this
      ensures world == Later(start, outside.env, k, n + 1) && clock == k + n + 1
      ensures ApprovalsSteady(old(world), world)
    {
      AwaitedTwice(Moment(start, k), outside, n, 1);
      Await();
    }

    /** loadApprovedApprovals: each is looked up once, at its own moment. */
    method LoadApprovedApprovals(task: Text, ids: seq<Text>, types: set<Text>) returns (error: Option<LoopError>)
      modifies this
      ensures ApprovalsSteady(old(world), world)
      ensures error.None? <==> Loads(old(Now()), outside, ids, task, types)
      ensures error.Some? ==> !OfTransition(error.value)
      ensures error.None? ==> Now() == Awaited(old(Now()), outside, |ids|) && forall i :: 0 <= i < |ids| ==> ids[i] in world.approvals
    {
      hide ApprovalsSteady;
      NoneLater(world, outside.env, clock);
      StartSteady(world);
      for i := 0 to |ids|
        invariant ApprovalsSteady(old(world), world)
        invariant Now() == Awaited(old(Now()), outside, i)
        invariant forall j :: 0 <= j < i ==> ids[j] in world.approvals && Loadable(old(Now()), outside, j, ids[j], task, types)
      {
        ghost var before := world;
        AwaitSince(old(world), old(clock), i);
        StillSteady(old(world), before, world);
        forall j | 0 <= j < i ensures ids[j] in world.approvals {
          SteadyAt(before, world, ids[j]);
        }
        var id := ids[i];
        if id !in world.approvals {
          return Some(NotFound(id));
        }
        var approval := world.approvals[id];
        if approval.taskRunId != task {
          return Some(WrongTask(id));
        }
        if approval.actionType !in types {
          return Some(WrongType(id));
        }
        if !Approving(approval.status) {
          return Some(NotApproved(id));
        }
      }
      error := None;
    }

    /** The runner's executeApproved, as far as the store sees it. */
    method ExecuteApproved(id: Text) returns (e: Execution)
      modifies this
      ensures (Now(), e) == Execute(old(Now()), outside, id)
      ensures ApprovalsSteady(old(world), world) && (e.Ran? ==> Resolved(world, id))
    {
      hide Awaited, ApprovalsSteady, Resolved;
      ExecuteClaims(Now(), outside, id);
      Await();
      if id !in world.approvals || !Approving(world.approvals[id].status) {
        return Threw(false);
      }
      var revision := world.approvals[id].revision;
      Await();
      if !outside.admits(clock) || !Claims(world, id, revision) {
        return Threw(false);
      }
      world := world.(approvals := world.approvals[id := world.approvals[id].(claimed := true)]);
      Await();
      e := outside.executions(clock);
    }

    /** rejectIfUnresolved, with the reads and the conditional update of `decideApproval`. */
    method RejectIfUnresolved(id: Text) returns (error: Option<LoopError>)
      modifies this
      ensures error.Some? <==> Refused(old(Now()), outside, id)
      ensures error.Some? ==> error.value.Locked?
      ensures Now() == AfterRejection(old(Now()), outside, id)
      ensures ApprovalsSteady(old(world), world)
      ensures error.None? && id in old(world).approvals ==> Resolved(world, id)
    {
      hide Awaited, ApprovalsSteady, Resolved;
      RejectionResolves(Now(), outside, id);
      AwaitedTwice(Now(), outside, 1, 1);
      AwaitedTwice(Now(), outside, 2, 1);
      error := None;
      Await();
      if id !in world.approvals { return; }
      var latest := world.approvals[id];
      if latest.claimed || !Unresolved(latest.status) { return; }
      Await();
      ghost var read := world;
      if id !in world.approvals || world.approvals[id].replaced || world.approvals[id].claimed ||
         world.approvals[id].status.Executed? || world.approvals[id].status.Rejected? {
        return Some(Locked);
      }
      var existing := world.approvals[id];
      Await();
      if id !in world.approvals || world.approvals[id].revision != existing.revision ||
         world.approvals[id].status != existing.status || world.approvals[id].replaced || !TaskOpen(world) {
        assert Misses(read, world, id);
        return Some(Locked);
      }
      world := world.(approvals := world.approvals[id := world.approvals[id].(status := Rejected)]);
      Await();
    }

    /** resolveFailedAttemptApprovals: the failed approval first, then those skipped because of it. */
    method ResolveFailed(failed: Text, skipped: seq<Text>) returns (error: Option<LoopError>)
      modifies this
      ensures error.Some? <==> SomeRefused(old(Now()), outside, [failed] + skipped)
      ensures error.Some? ==> error.value.Locked?
      ensures error.Some? ==> exists j: nat :: StopsAt(old(Now()), outside, [failed] + skipped, j, Now())
      ensures ApprovalsSteady(old(world), world)
      ensures error.None? ==> AllResolved(old(world), world, [failed] + skipped)
      ensures error.None? ==> Now() == Awaited(AfterRejections(old(Now()), outside, [failed] + skipped), outside, 1)
    {
      hide AllResolved, ApprovalsSteady, Refused, AfterRejection, Awaited;
      ghost var all := [failed] + skipped;
      ghost var start := Now();
      FirstRejection(start, outside, all);
      error := RejectIfUnresolved(failed);
      if error.Some? {
        StopsHere(start, outside, all, 0);
        return;
      }
      for i := 0 to |skipped|
        invariant ApprovalsSteady(old(world), world) && error.None?
        invariant Now() == AfterRejections(start, outside, all[..i + 1])
        invariant NoneRefused(start, outside, all, i + 1)
      {
        hide NoneRefused, SomeRefused, StopsAt;
        ghost var before := world;
        NextRejection(start, outside, all, i + 1);
        error := RejectIfUnresolved(skipped[i]);
        StillSteady(old(world), before, world);
        if error.Some? {
          StopsHere(start, outside, all, i + 1);
          return;
        }
      }
      ghost var before := world;
      assert all[..|all|] == all;
      RejectionsResolve(start, outside, all);
      Await();
      StillSteady(old(world), before, world);
      AllResolvedLater(old(world), before, world, all);
    }

    /** executeApproved of every change up to the first that throws, and what is done then. */
    method ApplyChanges(changeIds: seq<Text>, verificationIds: seq<Text>)
      returns (applied: seq<Text>, failure: Option<NextAction>, error: Option<LoopError>)
      requires Present(world, changeIds) && Present(world, verificationIds)
      modifies this
      ensures ApprovalsSteady(old(world), world)
      ensures applied <= changeIds
      ensures error.Some? ==> error.value.Locked?
      ensures failure.None? ==>
                && error.None? && applied == changeIds && NoneFails(old(Now()), outside, changeIds, false)
                && Now() == Progress(old(Now()), outside, changeIds, |changeIds|)
                && AllResolved(world, world, changeIds)
      ensures failure.Some? ==>
                && FirstFails(old(Now()), outside, changeIds, |applied|, false)
                && failure.value == NextAfter(ExecutionOf(old(Now()), outside, changeIds, |applied|))
                && (error.Some? <==> ApplyRefused(old(Now()), outside, changeIds, verificationIds, |applied|))
      ensures failure.Some? && error.None? ==>
                && AllResolved(world, world, changeIds + verificationIds)
                && Now() == AllRejected(old(Now()), outside, changeIds, verificationIds, |applied|)
    {
      hide ApprovalsSteady, Execute, AllResolved, SomeRefused, StopsAt, Awaited;
      applied, failure, error := [], None, None;
      ghost var start := Now();
      StartSteady(world);
      NothingResolved(world);
      for i := 0 to |changeIds|
        invariant applied == changeIds[..i] && failure.None? && error.None?
        invariant Now() == Progress(start, outside, changeIds, i)
        invariant forall k: nat :: k < i ==> !Fails(ExecutionOf(start, outside, changeIds, k), false)
        invariant ApprovalsSteady(old(world), world) && AllResolved(start.world, world, applied)
      {
        ghost var before := world;
        var execution := ExecuteApproved(changeIds[i]);
        StillSteady(old(world), before, world);
        AllResolvedLater(start.world, before, world, applied);
        if execution.Threw? {
          failure := Some(NextAfter(execution));
          ghost var failed := world;
          var skipped := changeIds[i + 1..] + verificationIds;
          error := ResolveFailed(changeIds[i], skipped);
          StillSteady(old(world), failed, world);
          AllResolvedLater(start.world, failed, world, applied);
          assert [changeIds[i]] + skipped == changeIds[i..] + verificationIds;
          if error.None? {
            PresentLater(start.world, failed, changeIds + verificationIds);
            assert applied + (changeIds[i..] + verificationIds) == changeIds + verificationIds;
            BothResolved(start.world, failed, world, applied, changeIds[i..] + verificationIds);
          }
          return;
        }
        applied := applied + [changeIds[i]];
        OneMoreResolved(start.world, world, changeIds[..i], changeIds[i]);
      }
      BothResolved(start.world, start.world, world, applied, []);
      assert applied + [] == changeIds;
    }

    /** executeApproved of every verification, up to the first that throws or exits with another code than zero. */
    method RunVerifications(ids: seq<Text>) returns (results: seq<int>, failed: bool, error: Option<LoopError>)
      requires Present(world, ids)
      modifies this
      ensures ApprovalsSteady(old(world), world)
      ensures |results| <= |ids|
      ensures error.Some? ==> error.value.Locked?
      ensures forall i :: 0 <= i < |results| ==> results[i] == ExitCode(ExecutionOf(old(Now()), outside, ids, i))
      ensures !failed ==>
                && error.None? && NoneFails(old(Now()), outside, ids, true)
                && |results| == |ids| && (forall i :: 0 <= i < |results| ==> results[i] == 0)
                && Now() == Progress(old(Now()), outside, ids, |ids|)
      ensures failed ==>
                && FirstFails(old(Now()), outside, ids, PassedFirst(results), true)
                && (error.Some? <==> ApplyRefused(old(Now()), outside, ids, [], PassedFirst(results)))
                && (error.None? ==> Now() == AllRejected(old(Now()), outside, ids, [], PassedFirst(results)))
      ensures error.None? ==> AllResolved(world, world, ids)
    {
      hide ApprovalsSteady, Execute, AllResolved, SomeRefused, StopsAt, Awaited, PassedFirst;
      results, failed, error := [], false, None;
      ghost var start := Now();
      StartSteady(world);
      NothingResolved(world);
      for i := 0 to |ids|
        invariant |results| == i && !failed && error.None? && forall j :: 0 <= j < i ==> results[j] == 0
        invariant forall j :: 0 <= j < i ==> results[j] == ExitCode(ExecutionOf(start, outside, ids, j))
        invariant Now() == Progress(start, outside, ids, i)
        invariant forall k: nat :: k < i ==> !Fails(ExecutionOf(start, outside, ids, k), true)
        invariant ApprovalsSteady(old(world), world) && AllResolved(start.world, world, ids[..i])
      {
        ghost var before := world;
        var execution := ExecuteApproved(ids[i]);
        StillSteady(old(world), before, world);
        AllResolvedLater(start.world, before, world, ids[..i]);
        var exitCode := ExitCode(execution);
        AllPassed(results, [exitCode]);
        if execution.Ran? {
          results := results + [exitCode];
        }
        if execution.Threw? || exitCode != 0 {
          failed := true;
          ghost var stopped := world;
          error := ResolveFailed(ids[i], ids[i + 1..]);
          StillSteady(old(world), stopped, world);
          AllResolvedLater(start.world, stopped, world, ids[..i]);
          assert [ids[i]] + ids[i + 1..] == ids[i..] + [];
          if error.None? {
            PresentLater(start.world, stopped, ids);
            assert ids[..i] + (ids[i..] + []) == ids;
            BothResolved(start.world, stopped, world, ids[..i], ids[i..] + []);
          }
          return;
        }
        OneMoreResolved(start.world, world, ids[..i], ids[i]);
        assert ids[..i] + [ids[i]] == ids[..i + 1];
      }
      BothResolved(start.world, start.world, world, ids[..|ids|], []);
      assert ids[..|ids|] + [] == ids;
    }

    /** The loops of runAttempt: what the attempt amounts to before it is finished. */
    method RunBatch(changeIds: seq<Text>, verificationIds: seq<Text>) returns (attempt: Attempt, error: Option<LoopError>)
      requires Present(world, changeIds) && Present(world, verificationIds)
      modifies this
      ensures ApprovalsSteady(old(world), world)
      ensures error.Some? <==> RejectionThrows(old(Now()), outside, changeIds, verificationIds)
      ensures error.Some? ==> error.value.Locked?
      ensures error.None? ==>
                && EndingOf(old(Now()), outside, changeIds, verificationIds) == Ending(Now(), attempt.status, attempt.nextAction)
                && IsResult(attempt, old(Now()), outside, changeIds, verificationIds)
                && Present(world, changeIds) && AllResolved(world, world, changeIds)
                && Present(world, verificationIds) && AllResolved(world, world, verificationIds)
    {
      hide ApprovalsSteady, Execute, AllResolved, Awaited, FirstFails, NoneFails, ApplyRefused, AllRejected, StopsFrom;
      ghost var begun := Now();
      attempt, error := Attempt(NoChanges, NextAction.ReadyForReview, [], []), None;
      if changeIds == [] && verificationIds == [] {
        NothingThrows(begun, outside);
        NothingResolved(world);
        StartSteady(world);
        return;
      }
      var applied, failure, applyError := ApplyChanges(changeIds, verificationIds);
      PresentLater(begun.world, world, changeIds);
      PresentLater(begun.world, world, verificationIds);
      if failure.Some? {
        ApplyThrowsAt(begun, outside, changeIds, verificationIds, |applied|);
        if applyError.Some? { return attempt, applyError; }
        StopsAtFirst(begun, outside, changeIds, false, 0, |applied|);
        SplitResolved(world, changeIds, verificationIds);
        return Attempt(ApplyFailed, failure.value, applied, []), None;
      }
      NoneThrows(begun, outside, changeIds, verificationIds);
      StopsAtEnd(begun, outside, changeIds, false, 0);
      ghost var checking, changed := Now(), world;
      var results, failed, runError := RunVerifications(verificationIds);
      StillSteady(begun.world, changed, world);
      StillResolved(changed, world, changeIds);
      PresentLater(changed, world, verificationIds);
      if failed {
        VerifyThrowsAt(checking, outside, verificationIds, PassedFirst(results));
        if runError.Some? { return attempt, runError; }
        StopsAtFirst(checking, outside, verificationIds, true, 0, PassedFirst(results));
        return Attempt(VerificationFailed, RepairRequired, applied, results), None;
      }
      NoneVerifyThrows(checking, outside, verificationIds);
      StopsAtEnd(checking, outside, verificationIds, true, 0);
      attempt := Attempt(if verificationIds != [] then Verified else AppliedUnverified, NextAction.ReadyForReview, applied, results);
    }

    /** readValidation. */
    method ReadValidation(task: Text) returns (view: View)
      modifies this
      ensures IsView(view, old(world), outside.env, old(clock), task)
      ensures Now() == Awaited(old(Now()), outside, 10)
      ensures ApprovalsSteady(old(world), world)
    {
      hide ApplyAll, Later, RunsOf, Watermark, EpochOf, ApprovalsSteady, V.IsNewest, V.Verdict, V.Chosen;
      AwaitedSteady(Now(), outside, 10);
      ghost var start, k := world, clock;
      NoneLater(start, outside.env, k);
      AwaitSince(start, k, 0);
      AwaitSince(start, k, 1);
      var key, fingerprint := world.workspaceKey, world.fingerprint;
      AwaitSince(start, k, 2);
      var epoch := EpochOf(world, key);
      AwaitSince(start, k, 3);
      var watermark := Watermark(world.runs, task);
      AwaitSince(start, k, 4);
      var runs := RunsOf(world.runs, task);
      AwaitSince(start, k, 5);
      var steps := world.steps;
      AwaitSince(start, k, 6);
      var artifacts := world.artifacts;
      var input := V.Input(task, runs, steps, artifacts, V.Workspace(key, fingerprint, epoch.generation, epoch.activeMutations));
      var selected, reasons := SelectEvidence(input);
      assert input == Seen(start, outside.env, k, task);
      var state := ValidationState(key, fingerprint, epoch.generation, watermark);
      assert state == StateSeen(start, outside.env, k, task);
      hide Seen, StateSeen;
      AwaitSince(start, k, 7);
      var finalKey, finalFingerprint := world.workspaceKey, world.fingerprint;
      AwaitSince(start, k, 8);
      var finalEpoch := EpochOf(world, key);
      AwaitSince(start, k, 9);
      var finalWatermark := Watermark(world.runs, task);
      if key != finalKey || fingerprint != finalFingerprint || epoch != finalEpoch || watermark != finalWatermark {
        selected, reasons := [], reasons + [ChangedMeanwhile];
      }
      view := View(runs, selected, reasons, state);
    }

    /** setTaskRunStatus. */
    method SetTaskStatus(target: TaskStatus) returns (error: Option<LoopError>)
      modifies this
      ensures error.Some? <==> TransitionRefused(old(Now()), outside, target)
      ensures error.Some? ==> OfTransition(error.value)
      ensures error.None? ==> world.task == target
      ensures ApprovalsSteady(old(world), world)
    {
      hide ApprovalsSteady, Awaited, Allowed;
      AwaitedTwice(Now(), outside, 1, 1);
      Await();
      var current := world.task;
      if target !in Allowed(current) {
        return Some(InvalidTransition(current, target));
      }
      if current == target {
        return None;
      }
      ghost var before := world;
      Await();
      StillSteady(old(world), before, world);
      if world.task == current {
        before := world;
        world := world.(task := target);
        SameApprovalsSteady(before, world);
        StillSteady(old(world), before, world);
        return None;
      }
      if world.task == target {
        return None;
      }
      return Some(StateConflict);
    }

    /**
     finishAttempt: a verified attempt stays so exactly if what was read vouches for it and the
     gate passes; a current failure turns it into a failed verification. It throws exactly if the
     task may not get the status that follows from the outcome.
     */
    method FinishAttempt(task: Text, attempt: Attempt, verificationIds: seq<Text>)
      returns (result: Attempt, error: Option<LoopError>, ghost read: Reading)
      modifies this
      ensures ApprovalsSteady(old(world), world)
      ensures error.Some? <==>
                FinishRefused(Ending(old(Now()), attempt.status, attempt.nextAction), outside, task, verificationIds)
      ensures error.Some? ==> OfTransition(error.value)
      ensures error.None? ==> world.task == Target(result.status, result.nextAction)
      ensures error.None? ==>
                && (world.task.Blocked? <==> attempt.status.ApplyFailed? && !attempt.nextAction.RepairRequired?)
                && (world.task.QualityFailed? <==>
                      result.status.VerificationFailed? || (attempt.status.ApplyFailed? && attempt.nextAction.RepairRequired?))
                && (!world.task.Blocked? && !world.task.QualityFailed? ==> world.task.ReadyForReview?)
      ensures read.start == old(world) && read.clock == old(clock)
      ensures attempt.status.Verified? ==>
                && IsView(read.view, read.start, outside.env, read.clock, task)
                && result.status == FinalStatus(Verified, read.view, verificationIds, Later(read.start, outside.env, read.clock, 11), task)
                && result == attempt.(status := result.status,
                     nextAction := if result.status.Verified? then attempt.nextAction
                                   else if result.status.VerificationFailed? then RepairRequired else NextAction.ReadyForReview)
      ensures !attempt.status.Verified? ==> result == attempt
    {
      hide ApprovalsSteady, IsView, Later, CheckPassed, GatePasses, TransitionRefused, FinishRefused;
      StartSteady(world);
      ghost var e := Ending(Now(), attempt.status, attempt.nextAction);
      var view := View([], [], [], ValidationState([], None, 0, 0));
      result := attempt;
      if attempt.status.Verified? || attempt.status.VerificationFailed? {
        AwaitedTwice(Now(), outside, 10, 1);
        view := ReadValidation(task);
        if attempt.status.Verified? {
          var failure := CurrentFailure(view);
          var passed := AllChecksPassed(view, verificationIds);
          if !passed || view.reasons != [] || failure {
            result := if failure then attempt.(status := VerificationFailed, nextAction := RepairRequired)
                      else attempt.(status := AppliedUnverified, nextAction := NextAction.ReadyForReview);
          }
        }
      }
      read := Reading(e.at.world, e.at.clock, view);
      ghost var before := world;
      Await();
      StillSteady(old(world), before, world);
      if result.status.Verified? && !GatePasses(world, task, view.state) {
        result := result.(status := AppliedUnverified, nextAction := NextAction.ReadyForReview);
      }
      before := world;
      AwaitedTwice(Now(), outside, 1, 1);
      Await();
      StillSteady(old(world), before, world);
      before := world;
      Await();
      StillSteady(old(world), before, world);
      before := world;
      FinishRefusedAt(e, outside, task, verificationIds, view);
      TaskMeans(attempt, result, view, verificationIds, GateMoment(e, outside).world, task);
      error := SetTaskStatus(Target(result.status, result.nextAction));
      StillSteady(old(world), before, world);
    }

    /**
     runAttempt. It throws exactly if something cannot be loaded, a rejection after a failure is
     refused, or the task may not get its final status. Unless it throws before that last step, no
     approval of the batch is left approved or pending unless its execution was claimed; and a
     verified result is vouched for by the store at the moment the gate was recorded.
     */
    method RunAttempt(task: Text, changeIds: seq<Text>, verificationIds: seq<Text>)
      returns (r: Result<Attempt, LoopError>, ghost read: Reading)
      modifies this
      ensures r.Err? <==> AttemptThrows(old(Now()), outside, task, changeIds, verificationIds)
      ensures r.Err? ==>
                (OfTransition(r.error) <==> !BatchThrows(old(Now()), outside, task, changeIds, verificationIds))
      ensures !BatchThrows(old(Now()), outside, task, changeIds, verificationIds) ==>
                && Present(world, changeIds) && AllResolved(world, world, changeIds)
                && Present(world, verificationIds) && AllResolved(world, world, verificationIds)
      ensures r.Ok? ==> IsResult(r.value, Begun(old(Now()), outside, changeIds, verificationIds), outside, changeIds, verificationIds)
      ensures r.Ok? ==>
                var begun := Begun(old(Now()), outside, changeIds, verificationIds);
                var checking := Progress(begun, outside, changeIds, |changeIds|);
                var ran, passed := FirstRan(begun, outside, changeIds, |changeIds|), AllExitedZero(checking, outside, verificationIds);
                && (world.task.Blocked? <==> StoppedBy(begun, outside, changeIds, false))
                && (world.task.QualityFailed? <==> r.value.status.VerificationFailed? || StoppedBy(begun, outside, changeIds, true))
                && (world.task.ReadyForReview? <==> ran && passed && (verificationIds != [] ==> !CurrentFailure(read.view)))
                && (r.value.nextAction.RepairRequired? <==> world.task.QualityFailed?)
                && (r.value.nextAction.Blocked? <==> world.task.Blocked?)
                && (r.value.status.ApplyFailed? <==> !ran)
                && (r.value.status.NoChanges? <==> changeIds == [] && verificationIds == [])
                && (r.value.status.VerificationFailed? <==>
                      ran && (!passed || (verificationIds != [] && CurrentFailure(read.view))))
                && (ran && passed && verificationIds != [] ==>
                      && Moment(read.start, read.clock) == Progress(checking, outside, verificationIds, |verificationIds|)
                      && IsView(read.view, read.start, outside.env, read.clock, task)
                      && (r.value.status.Verified? <==>
                            Vouches(read.view, verificationIds) &&
                            GatePasses(Later(read.start, outside.env, read.clock, 11), task, read.view.state)))
      ensures r.Ok? && r.value.status.Verified? ==>
                && Vouched(read.start, outside.env, read.clock, task, verificationIds)
                && StillCurrent(read.start, outside.env, read.clock, 11, task)
    {
      hide ApprovalsSteady, Execute, AllResolved, Awaited, Loads, FirstFails, NoneFails, ApplyRefused, Vouched, IsView, CheckPassed;
      hide Later, StillCurrent, GatePasses, FinishRefused, Target, Vouches, CurrentFailure, EndingOf, RejectionThrows, IsResult;
      hide FirstRan, StoppedBy, AllExitedZero;
      ghost var begun := Begun(Now(), outside, changeIds, verificationIds);
      Await();
      read := Reading(world, clock, View([], [], [], ValidationState([], None, 0, 0)));
      if !outside.taskKnown(task) {
        return Err(NotFound(task)), read;
      }
      var error := LoadApprovedApprovals(task, changeIds, CHANGES);
      if error.Some? { return Err(error.value), read; }
      ghost var loaded := world;
      error := LoadApprovedApprovals(task, verificationIds, CHECKS);
      if error.Some? { return Err(error.value), read; }
      PresentLater(loaded, world, changeIds);
      loaded := world;
      Await();
      PresentLater(loaded, world, changeIds);
      PresentLater(loaded, world, verificationIds);
      var attempt;
      attempt, error := RunBatch(changeIds, verificationIds);
      if error.Some? { return Err(error.value), read; }
      ghost var before := world;
      var result;
      result, error, read := FinishAttempt(task, attempt, verificationIds);
      StillResolved(before, world, changeIds);
      StillResolved(before, world, verificationIds);
      if error.Some? { return Err(error.value), read; }
      ResultKept(attempt, result, begun, outside, changeIds, verificationIds);
      EndingMeans(begun, outside, changeIds, verificationIds);
      TaskMeans(attempt, result, read.view, verificationIds, Later(read.start, outside.env, read.clock, 11), task);
      if result.status.Verified? {
        VerifiedMeans(read, outside, task, verificationIds);
      }
      r := Ok(result);
    }
  }

  lemma SameApprovalsSteady(v: World, w: World)
    requires v.approvals == w.approvals
    ensures ApprovalsSteady(v, w)
  {
  }

  /** The status of the task, in terms of what the attempt came to. */
  lemma TaskMeans(a: Attempt, b: Attempt, v: View, ids: seq<Text>, gate: World, task: Text)
    requires a.status.Verified? ==> b.status == FinalStatus(Verified, v, ids, gate, task)
    requires !a.status.Verified? ==> b == a
    ensures var target := Target(b.status, b.nextAction);
            && (target.Blocked? <==> a.status.ApplyFailed? && !a.nextAction.RepairRequired?)
            && (target.QualityFailed? <==> b.status.VerificationFailed? || (a.status.ApplyFailed? && a.nextAction.RepairRequired?))
            && (target.ReadyForReview? <==>
                  !a.status.ApplyFailed? && !a.status.VerificationFailed? && !(a.status.Verified? && CurrentFailure(v)))
            && (b.status.ApplyFailed? <==> a.status.ApplyFailed?) && (b.status.NoChanges? <==> a.status.NoChanges?)
            && (b.status.VerificationFailed? <==> a.status.VerificationFailed? || (a.status.Verified? && CurrentFailure(v)))
            && (a.status.Verified? ==> (b.status.Verified? <==> Vouches(v, ids) && GatePasses(gate, task, v.state)))
  {
    hide GatePasses, CheckPassed;
  }

  /** Finishing changes the verdict of a verified attempt only, and nothing that is said of the executions. */
  lemma ResultKept(a: Attempt, b: Attempt, begun: Moment, o: Outside, changeIds: seq<Text>, verificationIds: seq<Text>)
    requires IsResult(a, begun, o, changeIds, verificationIds)
    requires a.status.Verified? || b == a
    requires EndingOf(begun, o, changeIds, verificationIds).status == a.status
    requires a.status.Verified? ==> b.status in {Verified, VerificationFailed, AppliedUnverified} && b == a.(status := b.status, nextAction := b.nextAction)
    ensures IsResult(b, begun, o, changeIds, verificationIds)
  {
    hide FirstFails, NoneFails, Execute, StopsFrom;
  }

  lemma VerifiedMeans(read: Reading, o: Outside, task: Text, ids: seq<Text>)
    requires IsView(read.view, read.start, o.env, read.clock, task)
    requires Vouches(read.view, ids) && GatePasses(Later(read.start, o.env, read.clock, 11), task, read.view.state)
    ensures Vouched(read.start, o.env, read.clock, task, ids) && StillCurrent(read.start, o.env, read.clock, 11, task)
  {
    VouchesMeans(read.view, read.start, o.env, read.clock, task, ids);
    GateMeans(read.view, read.start, o.env, read.clock, 11, task);
  }

  /** The selection, with its reasons as reasons of the read. */
  method SelectEvidence(input: V.Input) returns (selected: seq<V.Run>, reasons: seq<Reason>)
    ensures forall r :: r in selected <==> V.Chosen(r, input)
    ensures reasons == [] <==> forall r :: V.IsNewest(r, input) ==> V.Verdict(r, input).None?
  {
    hide V.IsNewest, V.Verdict, V.Chosen, V.Ascending, V.DistinctCheckers, V.NoRepeats;
    var why;
    selected, why := V.SelectCurrentValidationEvidence(input);
    NoReasons(why, input);
    reasons := seq(|why|, i requires 0 <= i < |why| => Policy(why[i]));
  }

  predicate NoneRefused(m: Moment, o: Outside, ids: seq<Text>, n: nat)
    requires n <= |ids|
  {
    forall j: nat :: j < n ==> !Refused(AfterRejections(m, o, ids[..j]), o, ids[j])
  }

  /** Every one of the approvals that was there is resolved. */
  predicate AllResolved(v: World, w: World, ids: seq<Text>) {
    forall i :: 0 <= i < |ids| && ids[i] in v.approvals ==> Resolved(w, ids[i])
  }

  predicate Present(w: World, ids: seq<Text>) {
    forall i :: 0 <= i < |ids| ==> ids[i] in w.approvals
  }

  /** Present and resolved, and so it stays. */
  lemma StillResolved(v: World, w: World, ids: seq<Text>)
    requires Present(v, ids) && AllResolved(v, v, ids) && ApprovalsSteady(v, w)
    ensures Present(w, ids) && AllResolved(w, w, ids)
  {
  }

  lemma SplitResolved(w: World, first: seq<Text>, others: seq<Text>)
    requires AllResolved(w, w, first + others)
    ensures AllResolved(w, w, first) && AllResolved(w, w, others)
  {
    var both := first + others;
    forall i | 0 <= i < |first| && first[i] in w.approvals ensures Resolved(w, first[i]) {
      assert both[i] == first[i];
    }
    forall i | 0 <= i < |others| && others[i] in w.approvals ensures Resolved(w, others[i]) {
      assert both[|first| + i] == others[i];
    }
  }

  lemma PresentLater(v: World, w: World, ids: seq<Text>)
    requires Present(v, ids) && ApprovalsSteady(v, w)
    ensures Present(w, ids)
  {
  }

  lemma NothingResolved(w: World)
    ensures AllResolved(w, w, [])
  {
  }

  lemma OneMoreResolved(v: World, w: World, ids: seq<Text>, id: Text)
    requires AllResolved(v, w, ids) && Resolved(w, id)
    ensures AllResolved(v, w, ids + [id])
  {
  }

  /** What was resolved before and what is resolved now, of approvals that were there. */
  lemma BothResolved(u: World, v: World, w: World, first: seq<Text>, others: seq<Text>)
    requires AllResolved(u, w, first) && AllResolved(v, w, others) && Present(u, first) && Present(v, others)
    ensures AllResolved(w, w, first + others)
  {
  }

  lemma AllResolvedLater(u: World, v: World, w: World, ids: seq<Text>)
    requires AllResolved(u, v, ids) && ApprovalsSteady(v, w)
    ensures AllResolved(u, w, ids)
  {
  }

  lemma FirstRejection(m: Moment, o: Outside, ids: seq<Text>)
    requires ids != []
    ensures AfterRejections(m, o, ids[..0]) == m && AfterRejections(m, o, ids[..1]) == AfterRejection(m, o, ids[0])
    ensures NoneRefused(m, o, ids, 0)
    ensures NoneRefused(m, o, ids, 1) <==> !Refused(m, o, ids[0])
  {
    hide Refused, AfterRejection;
    assert ids[..1][..0] == [];
  }

  lemma NextRejection(m: Moment, o: Outside, ids: seq<Text>, i: nat)
    requires i < |ids| && NoneRefused(m, o, ids, i)
    ensures AfterRejections(m, o, ids[..i + 1]) == AfterRejection(AfterRejections(m, o, ids[..i]), o, ids[i])
    ensures NoneRefused(m, o, ids, i + 1) <==> !Refused(AfterRejections(m, o, ids[..i]), o, ids[i])
  {
    hide Refused, AfterRejection;
    assert ids[..i + 1][..i] == ids[..i];
  }

  lemma StopsHere(m: Moment, o: Outside, ids: seq<Text>, j: nat)
    requires j < |ids| && NoneRefused(m, o, ids, j) && Refused(AfterRejections(m, o, ids[..j]), o, ids[j])
    ensures SomeRefused(m, o, ids)
    ensures StopsAt(m, o, ids, j, AfterRejection(AfterRejections(m, o, ids[..j]), o, ids[j]))
  {
    hide Refused, AfterRejection;
    assert ids[..j + 1][..j] == ids[..j];
  }

  /** If none is refused, all are resolved. */
  lemma {:induction false} RejectionsResolve(m: Moment, o: Outside, ids: seq<Text>)
    requires NoneRefused(m, o, ids, |ids|)
    ensures !SomeRefused(m, o, ids)
    ensures ApprovalsSteady(m.world, AfterRejections(m, o, ids).world)
    ensures AllResolved(m.world, AfterRejections(m, o, ids).world, ids)
  {
    hide Refused, AfterRejection;
    if ids != [] {
      var n := |ids| - 1;
      var front := ids[..n];
      assert forall j: nat :: j < n ==> front[..j] == ids[..j];
      RejectionsResolve(m, o, front);
      var before := AfterRejections(m, o, front);
      RejectionResolves(before, o, ids[n]);
      var after := AfterRejections(m, o, ids);
      StillSteady(m.world, before.world, after.world);
      AllResolvedLater(m.world, before.world, after.world, front);
      SteadyAt(m.world, before.world, ids[n]);
      forall i | 0 <= i < |ids| && ids[i] in m.world.approvals ensures Resolved(after.world, ids[i]) {
        if i < n {
          assert front[i] == ids[i];
        }
      }
    }
  }

  /** The two loops over the requested approvals and the selected runs. */
  method AllChecksPassed(view: View, approvalIds: seq<Text>) returns (passed: bool)
    ensures passed <==> forall i :: 0 <= i < |approvalIds| ==> CheckPassed(view, approvalIds[i])
  {
    for i := 0 to |approvalIds|
      invariant forall j :: 0 <= j < i ==> CheckPassed(view, approvalIds[j])
    {
      var issued := NewestIssued(view.runs, approvalIds[i]);
      if issued.None? || issued.value.kinds == [] {
        return false;
      }
      var covered := false;
      for j := 0 to |view.selected|
        invariant covered <==> exists r :: r in view.selected[..j] && Covers(r, issued.value)
      {
        assert view.selected[..j + 1] == view.selected[..j] + [view.selected[j]];
        if Covers(view.selected[j], issued.value) {
          assert view.selected[j] in view.selected[..j + 1];
          covered := true;
        }
      }
      assert view.selected[..|view.selected|] == view.selected;
      if !covered {
        return false;
      }
    }
    passed := true;
  }
}
