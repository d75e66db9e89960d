/**
 What a code change attempt reads (packages/orchestration/src/code-change-loop-service.ts).
 */
module CodeChangeLoop {
  import opened Prelude
  import opened Utf16
  import V = ValidationEvidence

  // The store changes at every await: tasks move on, approvals are decided, edited, claimed and replaced
  // (packages/storage/src/repositories/approval-repository.ts), checks begin and finish
  // (validation-run-repository.ts) and the workspace is mutated (workspace-mutation-repository.ts).

  // ---------------------------------------------------------------- the store

  datatype ApprovalStatus = Pending | Approved | AlwaysApproved | Rejected | Executed

  /** `claimed` once an execution was claimed, whatever became of it. */
  datatype Approval = Approval(
    taskRunId: Text, actionType: Text, status: ApprovalStatus, claimed: bool, revision: nat, replaced: bool)

  datatype TaskStatus =
    | Drafting
    | WaitingForApproval
    | Running
    | Paused
    | Blocked
    | QualityFailed
    | ReadyForReview
    | Done
    | Cancelled

  /** ALLOWED_TRANSITIONS (packages/core/src/task-run/task-run-transition.ts). */
  function Allowed(from: TaskStatus): set<TaskStatus> {
    match from
    case Drafting => {Drafting, WaitingForApproval, Running, Blocked, QualityFailed, ReadyForReview, Cancelled}
    case WaitingForApproval => {WaitingForApproval, Running, Paused, Blocked, QualityFailed, ReadyForReview, Cancelled}
    case Running => {Running, WaitingForApproval, Paused, Blocked, QualityFailed, ReadyForReview, Cancelled}
    case Paused => {Paused, WaitingForApproval, Running, Blocked, QualityFailed, ReadyForReview, Cancelled}
    case Blocked => {Blocked, WaitingForApproval, Running, QualityFailed, ReadyForReview, Cancelled}
    case QualityFailed => {QualityFailed, WaitingForApproval, Running, Blocked, ReadyForReview, Cancelled}
    case ReadyForReview => {ReadyForReview, WaitingForApproval, Running, QualityFailed, Done, Cancelled}
    case Done => {Done, WaitingForApproval}
    case Cancelled => {Cancelled}
  }

  datatype Epoch = Epoch(generation: nat, activeMutations: nat)

  datatype World = World(
    task: TaskStatus, approvals: map<Text, Approval>, runs: seq<V.Run>, epochs: map<Text, Epoch>,
    workspaceKey: Text, fingerprint: Option<Text>, steps: seq<V.Step>, artifacts: seq<V.Artifact>)

  /** Approvals of a task that is done or cancelled are not touched. */
  predicate TaskOpen(w: World) {
    !w.task.Done? && !w.task.Cancelled?
  }

  /** What anyone else, or the attempt's own bookkeeping, may do to the store. */
  datatype Interference =
    | SetTask(status: TaskStatus)
    | PauseAll
    | Request(id: Text, approval: Approval)
    | Decide(id: Text, decision: ApprovalStatus)
    | Propose(id: Text)
    | Claim(id: Text)
    | FinishClaim(id: Text, failed: bool)
    | Replace(id: Text)
    | BeginRun(run: V.Run)
    | FinishRun(i: nat, run: V.Run)
    | BeginMutation(key: Text)
    | EndMutation(key: Text)
    | Recover(key: Text)
    | Edit(key: Text, fingerprint: Option<Text>)
    | Record(steps: seq<V.Step>, artifacts: seq<V.Artifact>)

  predicate Approving(s: ApprovalStatus) {
    s.Approved? || s.AlwaysApproved?
  }

  /** The conditional update of `decide`, where nothing changed since its own read. */
  predicate MayDecide(a: Approval, decision: ApprovalStatus, taskOpen: bool) {
    && taskOpen && !a.replaced && !decision.Pending?
    && (Approving(decision) ==> a.status.Pending? && !a.claimed)
    && (decision.Rejected? ==> !a.status.Executed? && !a.status.Rejected?)
  }

  function EpochOf(w: World, key: Text): Epoch {
    if key in w.epochs then w.epochs[key] else Epoch(0, 0)
  }

  /** The row of a run that finished: its identity and its start are kept. */
  predicate Finishes(before: V.Run, after: V.Run) {
    && before.status.Running? && !after.status.Running?
    && after == before.(status := after.status, exitCode := after.exitCode, artifactId := after.artifactId,
                        finishFingerprint := after.finishFingerprint, finishGeneration := after.finishGeneration)
  }

  function Apply(w: World, x: Interference): World {
    match x
    case SetTask(status) => if status in Allowed(w.task) then w.(task := status) else w
    case PauseAll => if TaskOpen(w) then w.(task := Paused) else w
    case Request(id, approval) => if id in w.approvals then w else w.(approvals := w.approvals[id := approval])
    case Decide(id, decision) =>
      if id in w.approvals && MayDecide(w.approvals[id], decision, TaskOpen(w)) then
        w.(approvals := w.approvals[id := w.approvals[id].(status := decision)])
      else w
    case Propose(id) =>
      if id in w.approvals && TaskOpen(w) && !w.approvals[id].replaced && !w.approvals[id].claimed &&
         !w.approvals[id].status.Executed? && !w.approvals[id].status.Rejected? then
        w.(approvals := w.approvals[id := w.approvals[id].(status := Pending, revision := w.approvals[id].revision + 1)])
      else w
    case Claim(id) =>
      if id in w.approvals && TaskOpen(w) && !w.approvals[id].replaced && !w.approvals[id].claimed && Approving(w.approvals[id].status) then
        w.(approvals := w.approvals[id := w.approvals[id].(claimed := true)])
      else w
    case FinishClaim(id, failed) =>
      if id in w.approvals && w.approvals[id].claimed && failed then
        w.(approvals := w.approvals[id := w.approvals[id].(status := Executed)])
      else w
    case Replace(id) => if id in w.approvals then w.(approvals := w.approvals[id := w.approvals[id].(replaced := true)]) else w
    case BeginRun(run) => if run.status.Running? then w.(runs := w.runs + [run]) else w
    case FinishRun(i, run) => if i < |w.runs| && Finishes(w.runs[i], run) then w.(runs := w.runs[i := run]) else w
    case BeginMutation(key) =>
      var e := EpochOf(w, key);
      w.(epochs := w.epochs[key := Epoch(e.generation + 1, e.activeMutations + 1)])
    case EndMutation(key) =>
      var e := EpochOf(w, key);
      if e.activeMutations > 0 then w.(epochs := w.epochs[key := Epoch(e.generation + 1, e.activeMutations - 1)]) else w
    case Recover(key) => w.(epochs := w.epochs[key := Epoch(EpochOf(w, key).generation + 1, 0)])
    case Edit(key, fingerprint) => w.(workspaceKey := key, fingerprint := fingerprint)
    case Record(steps, artifacts) => w.(steps := steps, artifacts := artifacts)
  }

  function ApplyAll(w: World, xs: seq<Interference>): World {
    if xs == [] then w else Apply(ApplyAll(w, xs[..|xs| - 1]), xs[|xs| - 1])
  }

  type Environment = nat -> seq<Interference>

  /** The store after `n` awaits beginning with the `k`-th. */
  function Later(w: World, env: Environment, k: nat, n: nat): World {
    if n == 0 then w else ApplyAll(Later(w, env, k, n - 1), env(k + n - 1))
  }

  lemma NoneLater(w: World, env: Environment, k: nat)
    ensures Later(w, env, k, 0) == w
  {
  }

  // ---------------------------------------------------------------- what interference cannot do

  /** listByTaskRun, in order of sequence, which is the order of insertion. */
  function RunsOf(runs: seq<V.Run>, task: Text): seq<V.Run> {
    if runs == [] then []
    else
      var n := |runs| - 1;
      if runs[n].taskRunId == task then RunsOf(runs[..n], task) + [runs[n]] else RunsOf(runs[..n], task)
  }

  /** getWatermark: runs begun and runs finished. */
  function Watermark(runs: seq<V.Run>, task: Text): nat {
    if runs == [] then 0
    else
      var n := |runs| - 1;
      Watermark(runs[..n], task) + if runs[n].taskRunId != task then 0 else if runs[n].status.Running? then 1 else 2
  }

  lemma {:induction false} RunFinished(runs: seq<V.Run>, i: nat, run: V.Run, task: Text)
    requires i < |runs| && Finishes(runs[i], run)
    ensures Watermark(runs[i := run], task) == Watermark(runs, task) + if run.taskRunId == task then 1 else 0
    ensures run.taskRunId != task ==> RunsOf(runs[i := run], task) == RunsOf(runs, task)
  {
    var n := |runs| - 1;
    if i == n {
      assert runs[i := run][..n] == runs[..n];
    } else {
      assert runs[i := run][..n] == runs[..n][i := run];
      RunFinished(runs[..n], i, run, task);
    }
  }

  lemma RunBegun(runs: seq<V.Run>, run: V.Run, task: Text)
    requires run.status.Running?
    ensures Watermark(runs + [run], task) == Watermark(runs, task) + if run.taskRunId == task then 1 else 0
    ensures run.taskRunId != task ==> RunsOf(runs + [run], task) == RunsOf(runs, task)
  {
    assert (runs + [run])[..|runs|] == runs;
  }

  /** The watermark never goes back, and as long as it stands still the task's runs do not change. */
  predicate RunsSteady(v: World, w: World, task: Text) {
    && Watermark(v.runs, task) <= Watermark(w.runs, task)
    && (Watermark(v.runs, task) == Watermark(w.runs, task) ==> RunsOf(v.runs, task) == RunsOf(w.runs, task))
  }

  /** So it is with the generation and the mutation state of a workspace. */
  predicate EpochSteady(v: World, w: World, key: Text) {
    && EpochOf(v, key).generation <= EpochOf(w, key).generation
    && (EpochOf(v, key).generation == EpochOf(w, key).generation ==> EpochOf(v, key) == EpochOf(w, key))
  }

  lemma ApplySteady(w: World, x: Interference, task: Text, key: Text)
    ensures RunsSteady(w, Apply(w, x), task) && EpochSteady(w, Apply(w, x), key)
  {
    hide Watermark, RunsOf;
    match x
    case BeginRun(run) => if run.status.Running? { RunBegun(w.runs, run, task); }
    case FinishRun(i, run) => if i < |w.runs| && Finishes(w.runs[i], run) { RunFinished(w.runs, i, run, task); }
    case _ =>
  }

  lemma {:induction false} ApplyAllSteady(w: World, xs: seq<Interference>, task: Text, key: Text)
    ensures RunsSteady(w, ApplyAll(w, xs), task) && EpochSteady(w, ApplyAll(w, xs), key)
  {
    if xs != [] {
      hide Apply, Watermark, RunsOf, EpochOf;
      ApplyAllSteady(w, xs[..|xs| - 1], task, key);
      ApplySteady(ApplyAll(w, xs[..|xs| - 1]), xs[|xs| - 1], task, key);
    }
  }

  lemma {:induction false} LaterSteady(w: World, env: Environment, k: nat, m: nat, n: nat, task: Text, key: Text)
    requires m <= n
    ensures RunsSteady(Later(w, env, k, m), Later(w, env, k, n), task)
    ensures EpochSteady(Later(w, env, k, m), Later(w, env, k, n), key)
    decreases n
  {
    hide ApplyAll, Watermark, RunsOf, EpochOf;
    if m < n {
      LaterSteady(w, env, k, m, n - 1, task, key);
      ApplyAllSteady(Later(w, env, k, n - 1), env(k + n - 1), task, key);
    }
  }

  predicate Unresolved(s: ApprovalStatus) {
    s.Pending? || Approving(s)
  }

  /** Nothing is left to execute: the approval is claimed, rejected or executed. */
  predicate Resolved(w: World, id: Text) {
    id in w.approvals && (w.approvals[id].claimed || !Unresolved(w.approvals[id].status))
  }

  /** Approvals do not vanish, and resolved ones stay resolved. */
  ghost predicate ApprovalsSteady(v: World, w: World) {
    && (forall id :: id in v.approvals ==> id in w.approvals)
    && (forall id :: Resolved(v, id) ==> Resolved(w, id))
  }

  lemma ApplyApprovals(w: World, x: Interference)
    ensures ApprovalsSteady(w, Apply(w, x))
  {
  }

  lemma {:induction false} ApplyAllApprovals(w: World, xs: seq<Interference>)
    ensures ApprovalsSteady(w, ApplyAll(w, xs))
  {
    if xs != [] {
      hide Apply;
      ApplyAllApprovals(w, xs[..|xs| - 1]);
      ApplyApprovals(ApplyAll(w, xs[..|xs| - 1]), xs[|xs| - 1]);
    }
  }

  // ---------------------------------------------------------------- reading the validation state

  datatype Reason = Policy(reason: V.Reason) | ChangedMeanwhile

  /** What a quality gate is recorded with. */
  datatype ValidationState = ValidationState(workspaceKey: Text, fingerprint: Option<Text>, generation: nat, watermark: nat)

  datatype View = View(runs: seq<V.Run>, selected: seq<V.Run>, reasons: seq<Reason>, state: ValidationState)

  /** What the reads of `readValidation` saw, one await after the other. */
  function Seen(w: World, env: Environment, k: nat, task: Text): V.Input {
    var revision := Later(w, env, k, 2);
    var epoch := EpochOf(Later(w, env, k, 3), revision.workspaceKey);
    V.Input(task, RunsOf(Later(w, env, k, 5).runs, task), Later(w, env, k, 6).steps, Later(w, env, k, 7).artifacts,
      V.Workspace(revision.workspaceKey, revision.fingerprint, epoch.generation, epoch.activeMutations))
  }

  /** The second look finds the revision, the mutation epoch and the watermark of the first. */
  predicate Stable(w: World, env: Environment, k: nat, task: Text) {
    var first, second := Later(w, env, k, 2), Later(w, env, k, 8);
    && first.workspaceKey == second.workspaceKey && first.fingerprint == second.fingerprint
    && EpochOf(Later(w, env, k, 3), first.workspaceKey) == EpochOf(Later(w, env, k, 9), first.workspaceKey)
    && Watermark(Later(w, env, k, 4).runs, task) == Watermark(Later(w, env, k, 10).runs, task)
  }

  function StateSeen(w: World, env: Environment, k: nat, task: Text): ValidationState {
    var revision := Later(w, env, k, 2);
    ValidationState(revision.workspaceKey, revision.fingerprint,
      EpochOf(Later(w, env, k, 3), revision.workspaceKey).generation, Watermark(Later(w, env, k, 4).runs, task))
  }

  ghost predicate IsView(v: View, w: World, env: Environment, k: nat, task: Text) {
    var input := Seen(w, env, k, task);
    && v.runs == input.runs && v.state == StateSeen(w, env, k, task)
    && (forall r :: r in v.selected <==> Stable(w, env, k, task) && V.Chosen(r, input))
    && (v.reasons == [] <==> Stable(w, env, k, task) && forall r :: V.IsNewest(r, input) ==> V.Verdict(r, input).None?)
  }

  /** All views of one read agree on what matters. */
  lemma ViewsAgree(u: View, v: View, w: World, env: Environment, k: nat, task: Text, approvalIds: seq<Text>)
    requires IsView(u, w, env, k, task) && IsView(v, w, env, k, task)
    ensures Vouches(u, approvalIds) == Vouches(v, approvalIds) && CurrentFailure(u) == CurrentFailure(v) && u.state == v.state
  {
    hide Seen, StateSeen, Stable, V.Chosen, V.IsNewest, V.Verdict, NewestIssued, Covers, V.Succeeded;
    assert forall r :: r in u.selected <==> r in v.selected;
    forall i | 0 <= i < |approvalIds|
      ensures CheckPassed(u, approvalIds[i]) == CheckPassed(v, approvalIds[i])
    {
    }
  }

  lemma NoReasons(why: seq<V.Reason>, input: V.Input)
    requires forall x :: x in why <==> exists r :: V.IsNewest(r, input) && V.Verdict(r, input) == Some(x)
    ensures why == [] <==> forall r :: V.IsNewest(r, input) ==> V.Verdict(r, input).None?
  {
    hide V.IsNewest, V.Verdict;
    forall r | V.IsNewest(r, input) && V.Verdict(r, input).Some? ensures V.Verdict(r, input).value in why {
    }
    if why != [] {
      assert why[0] in why;
    }
  }

  /** A stable read is a read of one moment: the task's runs and the mutation epoch stood still all along. */
  lemma {:induction false} StableRead(w: World, env: Environment, k: nat, task: Text)
    requires Stable(w, env, k, task)
    ensures forall n :: 4 <= n <= 10 ==> RunsOf(Later(w, env, k, n).runs, task) == Seen(w, env, k, task).runs
    ensures var key := Later(w, env, k, 2).workspaceKey;
            forall n :: 3 <= n <= 9 ==> EpochOf(Later(w, env, k, n), key) == EpochOf(Later(w, env, k, 3), key)
  {
    hide Later, EpochOf, RunsOf, Watermark;
    var key := Later(w, env, k, 2).workspaceKey;
    forall n | 4 <= n <= 10 ensures RunsOf(Later(w, env, k, n).runs, task) == RunsOf(Later(w, env, k, 4).runs, task) {
      LaterSteady(w, env, k, 4, n, task, key);
      LaterSteady(w, env, k, n, 10, task, key);
    }
    forall n | 3 <= n <= 9 ensures EpochOf(Later(w, env, k, n), key) == EpochOf(Later(w, env, k, 3), key) {
      LaterSteady(w, env, k, 3, n, task, key);
      LaterSteady(w, env, k, n, 9, task, key);
    }
  }

  // ---------------------------------------------------------------- the verdict of an attempt

  /** The first of the approval's runs with the highest sequence: `sort` is stable. */
  function NewestIssued(runs: seq<V.Run>, approvalId: Text): Option<V.Run> {
    if runs == [] then None
    else
      var n := |runs| - 1;
      var prior := NewestIssued(runs[..n], approvalId);
      if runs[n].approvalId == approvalId && (prior.None? || runs[n].sequence > prior.value.sequence) then Some(runs[n])
      else prior
  }

  lemma {:induction false} NewestIssuedFacts(runs: seq<V.Run>, approvalId: Text)
    ensures var issued := NewestIssued(runs, approvalId);
            issued.Some? ==>
              && issued.value in runs && issued.value.approvalId == approvalId
              && forall r :: r in runs && r.approvalId == approvalId ==> r.sequence <= issued.value.sequence
    ensures NewestIssued(runs, approvalId).None? ==> forall r :: r in runs ==> r.approvalId != approvalId
  {
    if runs != [] {
      var n := |runs| - 1;
      NewestIssuedFacts(runs[..n], approvalId);
      assert runs == runs[..n] + [runs[n]];
    }
  }

  predicate Covers(r: V.Run, issued: V.Run) {
    r.checkerId == issued.checkerId && r.sequence >= issued.sequence && V.Succeeded(r)
  }

  /** allRequestedChecksPassed, for one approval. */
  predicate CheckPassed(v: View, approvalId: Text) {
    var issued := NewestIssued(v.runs, approvalId);
    issued.Some? && issued.value.kinds != [] && exists r :: r in v.selected && Covers(r, issued.value)
  }

  predicate CurrentFailure(v: View) {
    exists r :: r in v.selected && !V.Succeeded(r)
  }

  predicate Vouches(v: View, approvalIds: seq<Text>) {
    (forall i :: 0 <= i < |approvalIds| ==> CheckPassed(v, approvalIds[i])) && v.reasons == [] && !CurrentFailure(v)
  }

  /**
   What a verified attempt means for the store at the end of the read: the read was of one
   moment; the newest relevant run of every checker succeeded on the current revision, with no
   mutation going on; and the newest run of every requested approval is a relevant one, so that
   an equal or later run of its checker succeeded.
   */
  ghost predicate Vouched(w: World, env: Environment, k: nat, task: Text, approvalIds: seq<Text>) {
    var now := Later(w, env, k, 10);
    var runs := RunsOf(now.runs, task);
    var revision, epoch := Later(w, env, k, 8), EpochOf(Later(w, env, k, 9), Later(w, env, k, 8).workspaceKey);
    && Stable(w, env, k, task)
    && (forall checker :: V.Latest(runs, task, checker).Some? ==>
          && V.Succeeded(V.Latest(runs, task, checker).value)
          && !V.Ambiguous(runs, task, checker)
          && V.Current(V.Latest(runs, task, checker).value,
                       V.Workspace(revision.workspaceKey, revision.fingerprint, epoch.generation, epoch.activeMutations)))
    && (forall i :: 0 <= i < |approvalIds| ==>
          var issued := NewestIssued(runs, approvalIds[i]);
          && issued.Some? && issued.value.kinds != []
          && V.Latest(runs, task, issued.value.checkerId).Some?
          && Covers(V.Latest(runs, task, issued.value.checkerId).value, issued.value))
  }

  lemma {:induction false} RunsOfTask(runs: seq<V.Run>, task: Text)
    ensures forall r :: r in RunsOf(runs, task) ==> r.taskRunId == task
  {
    if runs != [] {
      RunsOfTask(runs[..|runs| - 1], task);
    }
  }

  lemma {:induction false} VouchesMeans(v: View, w: World, env: Environment, k: nat, task: Text, approvalIds: seq<Text>)
    requires IsView(v, w, env, k, task) && Vouches(v, approvalIds)
    ensures Vouched(w, env, k, task, approvalIds)
  {
    hide Later, V.Latest, V.Ambiguous, V.VerdictGiven, V.Current, RunsOf, Watermark, NewestIssued;
    var input := Seen(w, env, k, task);
    var runs := input.runs;
    StableRead(w, env, k, task);
    assert RunsOf(Later(w, env, k, 10).runs, task) == runs;
    forall checker | V.Latest(runs, task, checker).Some?
      ensures var top := V.Latest(runs, task, checker).value;
              V.Succeeded(top) && !V.Ambiguous(runs, task, checker) && V.Current(top, input.current) && top in v.selected
    {
      NewestCounts(input, checker);
      assert V.IsNewest(V.Latest(runs, task, checker).value, input);
      VerdictMeans(V.Latest(runs, task, checker).value, input);
    }
    forall i | 0 <= i < |approvalIds|
      ensures var issued := NewestIssued(runs, approvalIds[i]);
              && issued.Some? && issued.value.kinds != [] && V.Latest(runs, task, issued.value.checkerId).Some?
              && Covers(V.Latest(runs, task, issued.value.checkerId).value, issued.value)
    {
      assert CheckPassed(v, approvalIds[i]);
      var issued := NewestIssued(runs, approvalIds[i]).value;
      NewestIssuedFacts(runs, approvalIds[i]);
      RunsOfTask(Later(w, env, k, 5).runs, task);
      V.LatestIsHighest(runs, task, issued.checkerId);
    }
  }

  /** The newest run of every checker counts and succeeded. */
  ghost predicate NewestSucceeded(input: V.Input) {
    forall checker :: V.Latest(input.runs, input.taskRunId, checker).Some? ==>
      var top := V.Latest(input.runs, input.taskRunId, checker).value;
      V.Verdict(top, input).None? && top.status == V.Completed && top.exitCode == Some(0.0)
  }

  /** The newest run of the approval is a relevant one, and the newest of its checker is no older. */
  ghost predicate Answered(input: V.Input, approvalId: Text) {
    var issued := NewestIssued(input.runs, approvalId);
    && issued.Some? && issued.value.kinds != []
    && exists top :: V.Latest(input.runs, input.taskRunId, issued.value.checkerId) == Some(top) && top.sequence >= issued.value.sequence
  }

  /**
   A read vouches for an attempt exactly if it was stable, the newest run of every checker counts and
   succeeded, and every requested approval is answered.
   */
  lemma VouchesExact(v: View, w: World, env: Environment, k: nat, task: Text, approvalIds: seq<Text>)
    requires IsView(v, w, env, k, task)
    ensures var input := Seen(w, env, k, task);
            Vouches(v, approvalIds) <==>
              Stable(w, env, k, task) && NewestSucceeded(input) && forall i :: 0 <= i < |approvalIds| ==> Answered(input, approvalIds[i])
  {
    hide Vouches, Stable, Seen, StateSeen, V.Chosen, V.IsNewest, V.Verdict, NewestSucceeded, Answered;
    var input := Seen(w, env, k, task);
    if Stable(w, env, k, task) {
      StableVouches(v, input, approvalIds);
    } else {
      assert !Vouches(v, approvalIds) by {
        NoVoucher(v, approvalIds);
      }
    }
  }

  lemma NoVoucher(v: View, approvalIds: seq<Text>)
    requires v.reasons != []
    ensures !Vouches(v, approvalIds)
  {
  }

  lemma LatestIsNewest(input: V.Input, checker: Text)
    ensures var top := V.Latest(input.runs, input.taskRunId, checker);
            top.Some? ==> V.IsNewest(top.value, input) && top.value.checkerId == checker
  {
    V.LatestIsHighest(input.runs, input.taskRunId, checker);
  }

  lemma StableVouches(v: View, input: V.Input, approvalIds: seq<Text>)
    requires v.runs == input.runs && forall r :: r in v.selected <==> V.Chosen(r, input)
    requires v.reasons == [] <==> forall r :: V.IsNewest(r, input) ==> V.Verdict(r, input).None?
    ensures Vouches(v, approvalIds) <==>
              NewestSucceeded(input) && forall i :: 0 <= i < |approvalIds| ==> Answered(input, approvalIds[i])
  {
    hide V.Latest, V.Verdict, NewestIssued;
    if Vouches(v, approvalIds) {
      forall checker | V.Latest(input.runs, input.taskRunId, checker).Some?
        ensures var top := V.Latest(input.runs, input.taskRunId, checker).value;
                V.Verdict(top, input).None? && top.status == V.Completed && top.exitCode == Some(0.0)
      {
        LatestIsNewest(input, checker);
        assert V.Latest(input.runs, input.taskRunId, checker).value in v.selected;
      }
      forall i | 0 <= i < |approvalIds|
        ensures Answered(input, approvalIds[i])
      {
        assert CheckPassed(v, approvalIds[i]);
      }
    }
    if NewestSucceeded(input) && forall i :: 0 <= i < |approvalIds| ==> Answered(input, approvalIds[i]) {
      forall r | V.IsNewest(r, input)
        ensures V.Verdict(r, input).None? && V.Succeeded(r)
      {
        assert V.Latest(input.runs, input.taskRunId, r.checkerId) == Some(r);
      }
      forall i | 0 <= i < |approvalIds|
        ensures CheckPassed(v, approvalIds[i])
      {
        AnsweredPasses(v, input, approvalIds[i]);
      }
    }
  }

  lemma AnsweredPasses(v: View, input: V.Input, approvalId: Text)
    requires v.runs == input.runs && NewestSucceeded(input) && Answered(input, approvalId)
    requires forall r :: r in v.selected <==> V.Chosen(r, input)
    ensures CheckPassed(v, approvalId)
  {
    hide V.Latest, V.Verdict, NewestIssued;
    var issued := NewestIssued(input.runs, approvalId).value;
    LatestIsNewest(input, issued.checkerId);
    var top := V.Latest(input.runs, input.taskRunId, issued.checkerId).value;
    assert top in v.selected && Covers(top, issued);
  }

  lemma NewestCounts(input: V.Input, checker: Text)
    requires V.Latest(input.runs, input.taskRunId, checker).Some?
    ensures var top := V.Latest(input.runs, input.taskRunId, checker).value; V.IsNewest(top, input) && top.checkerId == checker
  {
    V.LatestIsHighest(input.runs, input.taskRunId, checker);
  }

  lemma VerdictMeans(run: V.Run, input: V.Input)
    requires V.Verdict(run, input).None?
    ensures !V.Ambiguous(input.runs, input.taskRunId, run.checkerId) && V.Current(run, input.current)
  {
  }

  // ---------------------------------------------------------------- the quality gate

  /** Recording a passed gate keeps it passed only if the workspace and the runs are still those of the read. */
  predicate GatePasses(w: World, task: Text, s: ValidationState) {
    && s.fingerprint.Some? && EpochOf(w, s.workspaceKey) == Epoch(s.generation, 0) && Watermark(w.runs, task) == s.watermark
  }

  /** At the n-th await, too, the task's runs are those that were read, and no mutation has begun or ended since. */
  ghost predicate StillCurrent(w: World, env: Environment, k: nat, n: nat, task: Text) {
    var key := Later(w, env, k, 2).workspaceKey;
    && RunsOf(Later(w, env, k, n).runs, task) == Seen(w, env, k, task).runs
    && EpochOf(Later(w, env, k, n), key) == EpochOf(Later(w, env, k, 3), key)
    && EpochOf(Later(w, env, k, n), key).activeMutations == 0
  }

  lemma GateMeans(v: View, w: World, env: Environment, k: nat, n: nat, task: Text)
    requires IsView(v, w, env, k, task) && n >= 5 && GatePasses(Later(w, env, k, n), task, v.state)
    ensures StillCurrent(w, env, k, n, task)
  {
    hide Later, EpochOf, RunsOf, Watermark;
    var key := Later(w, env, k, 2).workspaceKey;
    LaterSteady(w, env, k, 4, 5, task, key);
    LaterSteady(w, env, k, 5, n, task, key);
    LaterSteady(w, env, k, 3, n, task, key);
  }

  lemma {:induction false} WatermarkOfRuns(runs: seq<V.Run>, task: Text)
    ensures Watermark(RunsOf(runs, task), task) == Watermark(runs, task)
  {
    if runs != [] {
      var n := |runs| - 1;
      WatermarkOfRuns(runs[..n], task);
      var before := RunsOf(runs[..n], task);
      assert (before + [runs[n]])[..|before|] == before;
    }
  }

  /** After a stable read of a workspace with a fingerprint the gate passes exactly as long as what was read is still current. */
  lemma GateExact(v: View, w: World, env: Environment, k: nat, n: nat, task: Text)
    requires IsView(v, w, env, k, task) && Stable(w, env, k, task) && n >= 10
    ensures GatePasses(Later(w, env, k, n), task, v.state) <==> v.state.fingerprint.Some? && StillCurrent(w, env, k, n, task)
  {
    if GatePasses(Later(w, env, k, n), task, v.state) {
      GateMeans(v, w, env, k, n, task);
    }
    hide Later, EpochOf, RunsOf, Watermark;
    if StillCurrent(w, env, k, n, task) {
      StableRead(w, env, k, task);
      WatermarkOfRuns(Later(w, env, k, n).runs, task);
      WatermarkOfRuns(Later(w, env, k, 4).runs, task);
    }
  }

  // ---------------------------------------------------------------- a cancelled task

  lemma {:induction false} CancelledForGood(w: World, xs: seq<Interference>)
    requires w.task.Cancelled?
    ensures ApplyAll(w, xs).task.Cancelled?
  {
    if xs != [] {
      CancelledForGood(w, xs[..|xs| - 1]);
    }
  }

  /** Nothing that happens reopens a cancelled task. */
  lemma {:induction false} CancelledLater(w: World, env: Environment, k: nat, n: nat)
    requires w.task.Cancelled?
    ensures Later(w, env, k, n).task.Cancelled?
  {
    if n > 0 {
      CancelledLater(w, env, k, n - 1);
      CancelledForGood(Later(w, env, k, n - 1), env(k + n - 1));
    }
  }
}
