/**
 Which recorded checks count (packages/core/src/validation-evidence-policy.ts).
 */
module ValidationEvidence {
  import opened Prelude
  import opened Utf16

  // Sequence numbers and exit codes are reals, as nothing keeps them from being fractions.

  datatype RunStatus = Running | Completed | Failed | Cancelled

  datatype Run = Run(
    id: Text, sequence: real, taskRunId: Text, stepId: Text, approvalId: Text, workspaceKey: Text, checkerId: Text,
    kinds: seq<Text>, startFingerprint: Option<Text>, startGeneration: int, finishFingerprint: Option<Text>,
    finishGeneration: Option<int>, status: RunStatus, exitCode: Option<real>, artifactId: Option<Text>)

  datatype Step = Step(id: Text, taskRunId: Text, kind: Text, status: Text)

  datatype Artifact = Artifact(id: Text, taskRunId: Text, stepId: Option<Text>, kind: Text)

  datatype Workspace = Workspace(key: Text, fingerprint: Option<Text>, generation: int, activeMutations: int)

  datatype Input = Input(taskRunId: Text, runs: seq<Run>, steps: seq<Step>, artifacts: seq<Artifact>, current: Workspace)

  datatype Reason = Ordering | InputsChanged | Unfinished | Unlinked | OutputMissing | NoExit

  predicate IsInteger(x: real) {
    x.Floor as real == x
  }

  predicate IsSafeInteger(x: real) {
    IsInteger(x) && -MAX_SAFE_INTEGER <= x.Floor <= MAX_SAFE_INTEGER
  }

  // ---------------------------------------------------------------- the newest run of a checker

  predicate Relevant(run: Run, task: Text) {
    run.taskRunId == task && run.kinds != []
  }

  predicate Of(run: Run, task: Text, checker: Text) {
    Relevant(run, task) && run.checkerId == checker
  }

  /** The first run of the checker with the highest sequence. */
  function Latest(runs: seq<Run>, task: Text, checker: Text): Option<Run> {
    if runs == [] then None
    else
      var n := |runs| - 1;
      var prior := Latest(runs[..n], task, checker);
      if Of(runs[n], task, checker) && (prior.None? || runs[n].sequence > prior.value.sequence) then Some(runs[n])
      else prior
  }

  /** At some point two different runs of the checker shared what was then the highest sequence. */
  predicate Ambiguous(runs: seq<Run>, task: Text, checker: Text) {
    if runs == [] then false
    else
      var n := |runs| - 1;
      var prior := Latest(runs[..n], task, checker);
      || Ambiguous(runs[..n], task, checker)
      || (Of(runs[n], task, checker) && prior.Some? && prior.value.sequence == runs[n].sequence && prior.value.id != runs[n].id)
  }

  lemma {:induction false} LatestIsHighest(runs: seq<Run>, task: Text, checker: Text)
    ensures var top := Latest(runs, task, checker);
            && (top.None? <==> forall r :: r in runs ==> !Of(r, task, checker))
            && (top.Some? ==> top.value in runs && Of(top.value, task, checker))
            && (top.Some? ==> forall r :: r in runs && Of(r, task, checker) ==> r.sequence <= top.value.sequence)
            && (top.Some? && !Ambiguous(runs, task, checker) ==>
                  forall r :: r in runs && Of(r, task, checker) && r.sequence == top.value.sequence ==> r.id == top.value.id)
  {
    if runs != [] {
      var n := |runs| - 1;
      LatestIsHighest(runs[..n], task, checker);
      assert runs == runs[..n] + [runs[n]];
    }
  }

  /** Runs of one checker never share a sequence. */
  predicate DistinctSequences(runs: seq<Run>, task: Text) {
    forall i, j :: 0 <= i < j < |runs| && Relevant(runs[i], task) && Of(runs[j], task, runs[i].checkerId) ==>
      runs[i].sequence != runs[j].sequence
  }

  lemma {:induction false} DistinctUnambiguous(runs: seq<Run>, task: Text, checker: Text)
    requires DistinctSequences(runs, task)
    ensures !Ambiguous(runs, task, checker)
  {
    if runs != [] {
      var n := |runs| - 1;
      DistinctUnambiguous(runs[..n], task, checker);
      LatestIsHighest(runs[..n], task, checker);
    }
  }

  // ---------------------------------------------------------------- what makes a run count

  /** new Map of the task's steps: the last one with an identifier wins. */
  function StepOf(steps: seq<Step>, task: Text, id: Text): Option<Step> {
    if steps == [] then None
    else
      var last := steps[|steps| - 1];
      if last.taskRunId == task && last.id == id then Some(last) else StepOf(steps[..|steps| - 1], task, id)
  }

  function ArtifactOf(artifacts: seq<Artifact>, task: Text, id: Text): Option<Artifact> {
    if artifacts == [] then None
    else
      var last := artifacts[|artifacts| - 1];
      if last.taskRunId == task && last.id == id then Some(last) else ArtifactOf(artifacts[..|artifacts| - 1], task, id)
  }

  predicate Present(t: Option<Text>) {
    t.Some? && t.value != []
  }

  predicate Succeeded(run: Run) {
    run.status.Completed? && run.exitCode == Some(0.0)
  }

  predicate Current(run: Run, current: Workspace) {
    && Present(current.fingerprint) && current.activeMutations == 0
    && run.workspaceKey == current.key && run.startFingerprint == current.fingerprint
    && run.finishFingerprint == current.fingerprint && run.startGeneration == current.generation
    && run.finishGeneration == Some(current.generation)
  }

  predicate Linked(run: Run, step: Option<Step>) {
    step.Some? && step.value.kind in {Lit("shell"), Lit("test")} &&
    step.value.status == if Succeeded(run) then Lit("succeeded") else Lit("failed")
  }

  predicate OutputFits(run: Run, artifact: Option<Artifact>) {
    && (Succeeded(run) ==> artifact.Some?)
    && (artifact.Some? ==> artifact.value.stepId == Some(run.stepId) && artifact.value.kind in {Lit("log"), Lit("test_result")})
  }

  function OutputOf(run: Run, input: Input): Option<Artifact> {
    if Present(run.artifactId) then ArtifactOf(input.artifacts, input.taskRunId, run.artifactId.value) else None
  }

  /** Why a newest run does not count, if it does not. */
  function Verdict(run: Run, input: Input): Option<Reason> {
    VerdictGiven(run, input, Ambiguous(input.runs, input.taskRunId, run.checkerId))
  }

  function VerdictGiven(run: Run, input: Input, ambiguous: bool): Option<Reason> {
    if ambiguous || !IsSafeInteger(run.sequence) || run.sequence < 1.0 then Some(Ordering)
    else if !Current(run, input.current) then Some(InputsChanged)
    else if run.status in {Running, Cancelled} then Some(Unfinished)
    else if !Linked(run, StepOf(input.steps, input.taskRunId, run.stepId)) then Some(Unlinked)
    else if !OutputFits(run, OutputOf(run, input)) then Some(OutputMissing)
    else if run.status.Completed? && !(run.exitCode.Some? && IsInteger(run.exitCode.value)) then Some(NoExit)
    else None
  }

  /** The last of the task's steps with the identifier. */
  predicate IsLastStep(steps: seq<Step>, i: int, task: Text, id: Text) {
    && 0 <= i < |steps| && steps[i].taskRunId == task && steps[i].id == id
    && forall j :: i < j < |steps| ==> steps[j].taskRunId != task || steps[j].id != id
  }

  predicate IsLastArtifact(artifacts: seq<Artifact>, i: int, task: Text, id: Text) {
    && 0 <= i < |artifacts| && artifacts[i].taskRunId == task && artifacts[i].id == id
    && forall j :: i < j < |artifacts| ==> artifacts[j].taskRunId != task || artifacts[j].id != id
  }

  lemma {:induction false} StepOfExact(steps: seq<Step>, task: Text, id: Text)
    ensures StepOf(steps, task, id).None? ==> forall i :: !IsLastStep(steps, i, task, id)
    ensures StepOf(steps, task, id).Some? ==> exists i :: IsLastStep(steps, i, task, id) && steps[i] == StepOf(steps, task, id).value
  {
    if steps != [] {
      var n := |steps| - 1;
      if steps[n].taskRunId == task && steps[n].id == id {
        assert IsLastStep(steps, n, task, id);
      } else {
        var front := steps[..n];
        StepOfExact(front, task, id);
        forall i | 0 <= i < n
          ensures IsLastStep(front, i, task, id) <==> IsLastStep(steps, i, task, id)
        {
        }
      }
    }
  }

  lemma {:induction false} ArtifactOfExact(artifacts: seq<Artifact>, task: Text, id: Text)
    ensures ArtifactOf(artifacts, task, id).None? ==> forall i :: !IsLastArtifact(artifacts, i, task, id)
    ensures ArtifactOf(artifacts, task, id).Some? ==>
              exists i :: IsLastArtifact(artifacts, i, task, id) && artifacts[i] == ArtifactOf(artifacts, task, id).value
  {
    if artifacts != [] {
      var n := |artifacts| - 1;
      if artifacts[n].taskRunId == task && artifacts[n].id == id {
        assert IsLastArtifact(artifacts, n, task, id);
      } else {
        var front := artifacts[..n];
        ArtifactOfExact(front, task, id);
        forall i | 0 <= i < n
          ensures IsLastArtifact(front, i, task, id) <==> IsLastArtifact(artifacts, i, task, id)
        {
        }
      }
    }
  }

  /** The runner's step of the run is a shell or test step that succeeded if the run did, and failed otherwise. */
  ghost predicate StepAgrees(run: Run, input: Input) {
    exists i ::
      && IsLastStep(input.steps, i, input.taskRunId, run.stepId)
      && (input.steps[i].kind == Lit("shell") || input.steps[i].kind == Lit("test"))
      && (run.status == Completed && run.exitCode == Some(0.0) ==> input.steps[i].status == Lit("succeeded"))
      && (run.status != Completed || run.exitCode != Some(0.0) ==> input.steps[i].status == Lit("failed"))
  }

  /** Its output is there if the run succeeded, and if it is there it belongs to that step. */
  ghost predicate OutputAgrees(run: Run, input: Input) {
    && (run.status == Completed && run.exitCode == Some(0.0) ==>
          run.artifactId.Some? && run.artifactId.value != [] &&
          exists i :: IsLastArtifact(input.artifacts, i, input.taskRunId, run.artifactId.value))
    && (run.artifactId.Some? && run.artifactId.value != [] ==>
          forall i :: IsLastArtifact(input.artifacts, i, input.taskRunId, run.artifactId.value) ==>
            && input.artifacts[i].stepId == Some(run.stepId)
            && (input.artifacts[i].kind == Lit("log") || input.artifacts[i].kind == Lit("test_result")))
  }

  /** A whole number from one up to the greatest safe integer. */
  predicate IsOrdinal(x: real) {
    x.Floor as real == x && 1 <= x.Floor <= MAX_SAFE_INTEGER
  }

  /** Both fingerprints and both generations are those of a workspace that is known and at rest. */
  predicate AtRest(run: Run, current: Workspace) {
    && current.fingerprint.Some? && current.fingerprint.value != [] && current.activeMutations == 0
    && run.workspaceKey == current.key
    && run.startFingerprint == current.fingerprint && run.finishFingerprint == current.fingerprint
    && run.startGeneration == current.generation && run.finishGeneration == Some(current.generation)
  }

  lemma LinkedExact(run: Run, input: Input)
    ensures Linked(run, StepOf(input.steps, input.taskRunId, run.stepId)) <==> StepAgrees(run, input)
  {
    hide Lit, StepOf;
    StepOfExact(input.steps, input.taskRunId, run.stepId);
    assert Lit("succeeded") != Lit("failed") by {
      assert |Lit("succeeded")| == 9 && |Lit("failed")| == 6;
    }
  }

  lemma OutputExact(run: Run, input: Input)
    ensures OutputFits(run, OutputOf(run, input)) <==> OutputAgrees(run, input)
  {
    hide Lit, ArtifactOf;
    if run.artifactId.Some? && run.artifactId.value != [] {
      ArtifactOfExact(input.artifacts, input.taskRunId, run.artifactId.value);
    }
  }

  /** What a newest run has to satisfy to count, and why it does not, condition by condition. */
  lemma VerdictExact(run: Run, input: Input)
    ensures var ordered := !Ambiguous(input.runs, input.taskRunId, run.checkerId) && IsOrdinal(run.sequence);
            var current := ordered && AtRest(run, input.current);
            var finished := current && (run.status == Completed || run.status == Failed);
            var linked := finished && StepAgrees(run, input);
            var output := linked && OutputAgrees(run, input);
            var exited := output && (run.status == Completed ==> run.exitCode.Some? && run.exitCode.value.Floor as real == run.exitCode.value);
            && (Verdict(run, input).None? <==> exited)
            && (Verdict(run, input) == Some(Ordering) <==> !ordered)
            && (Verdict(run, input) == Some(InputsChanged) <==> ordered && !current)
            && (Verdict(run, input) == Some(Unfinished) <==> current && !finished)
            && (Verdict(run, input) == Some(Unlinked) <==> finished && !linked)
            && (Verdict(run, input) == Some(OutputMissing) <==> linked && !output)
            && (Verdict(run, input) == Some(NoExit) <==> output && !exited)
  {
    hide Ambiguous, Linked, StepAgrees, OutputFits, OutputAgrees, StepOf, OutputOf;
    LinkedExact(run, input);
    OutputExact(run, input);
  }

  predicate IsNewest(run: Run, input: Input) {
    Latest(input.runs, input.taskRunId, run.checkerId) == Some(run)
  }

  predicate Chosen(run: Run, input: Input) {
    IsNewest(run, input) && Verdict(run, input).None?
  }

  // ---------------------------------------------------------------- order

  predicate Ascending(runs: seq<Run>) {
    forall i, j :: 0 <= i < j < |runs| ==> runs[i].sequence <= runs[j].sequence
  }

  predicate DistinctCheckers(runs: seq<Run>) {
    forall i, j :: 0 <= i < j < |runs| ==> runs[i].checkerId != runs[j].checkerId
  }

  /** Behind everything not greater: the sort is stable. */
  function Inserted(sorted: seq<Run>, run: Run): (r: seq<Run>)
    ensures |r| == |sorted| + 1
  {
    if sorted == [] || sorted[|sorted| - 1].sequence <= run.sequence then sorted + [run]
    else Inserted(sorted[..|sorted| - 1], run) + [sorted[|sorted| - 1]]
  }

  function SortedBySequence(runs: seq<Run>): (r: seq<Run>)
    ensures |r| == |runs|
  {
    if runs == [] then [] else Inserted(SortedBySequence(runs[..|runs| - 1]), runs[|runs| - 1])
  }

  lemma {:induction false} InsertedHolds(sorted: seq<Run>, run: Run)
    ensures multiset(Inserted(sorted, run)) == multiset(sorted) + multiset{run}
  {
    if !(sorted == [] || sorted[|sorted| - 1].sequence <= run.sequence) {
      var n := |sorted| - 1;
      InsertedHolds(sorted[..n], run);
      assert sorted == sorted[..n] + [sorted[n]];
    }
  }

  /** All are at most as high. */
  predicate AtMost(runs: seq<Run>, limit: real) {
    forall i :: 0 <= i < |runs| ==> runs[i].sequence <= limit
  }

  lemma {:induction false} InsertedAscending(sorted: seq<Run>, run: Run, limit: real)
    requires Ascending(sorted) && AtMost(sorted, limit) && run.sequence <= limit
    ensures Ascending(Inserted(sorted, run)) && AtMost(Inserted(sorted, run), limit)
  {
    if !(sorted == [] || sorted[|sorted| - 1].sequence <= run.sequence) {
      var n := |sorted| - 1;
      InsertedAscending(sorted[..n], run, sorted[n].sequence);
    }
  }

  lemma {:induction false} SortedHolds(runs: seq<Run>)
    ensures multiset(SortedBySequence(runs)) == multiset(runs)
  {
    if runs != [] {
      hide Inserted;
      var n := |runs| - 1;
      SortedHolds(runs[..n]);
      InsertedHolds(SortedBySequence(runs[..n]), runs[n]);
      assert runs == runs[..n] + [runs[n]];
    }
  }

  lemma {:induction false} SortedAscending(runs: seq<Run>, limit: real)
    requires AtMost(runs, limit)
    ensures Ascending(SortedBySequence(runs)) && AtMost(SortedBySequence(runs), limit)
  {
    if runs != [] {
      var n := |runs| - 1;
      SortedAscending(runs[..n], limit);
      InsertedAscending(SortedBySequence(runs[..n]), runs[n], limit);
    }
  }

  lemma {:induction false} Bounded(runs: seq<Run>) returns (limit: real)
    ensures AtMost(runs, limit)
  {
    limit := 0.0;
    if runs != [] {
      var n := |runs| - 1;
      limit := Bounded(runs[..n]);
      if limit < runs[n].sequence {
        limit := runs[n].sequence;
      }
    }
  }

  lemma SortedFacts(runs: seq<Run>)
    ensures Ascending(SortedBySequence(runs)) && multiset(SortedBySequence(runs)) == multiset(runs)
  {
    var limit := Bounded(runs);
    SortedAscending(runs, limit);
    SortedHolds(runs);
  }

  lemma DistinctPermuted(runs: seq<Run>, permuted: seq<Run>)
    requires DistinctCheckers(runs) && multiset(permuted) == multiset(runs)
    ensures DistinctCheckers(permuted)
    ensures forall r :: r in permuted <==> r in runs
  {
    forall r ensures r in permuted <==> r in runs {
      assert r in multiset(permuted) <==> r in multiset(runs);
    }
    forall i, j | 0 <= i < j < |permuted| ensures permuted[i].checkerId != permuted[j].checkerId {
      var a, b := permuted[i], permuted[j];
      if a == b {
        TwicePresent(permuted, i, j);
        OncePresent(runs, a);
      } else {
        assert a in runs && b in runs;
      }
    }
  }

  lemma TwicePresent(runs: seq<Run>, i: nat, j: nat)
    requires i < j < |runs| && runs[i] == runs[j]
    ensures multiset(runs)[runs[i]] >= 2
  {
    assert runs == runs[..j] + [runs[j]] + runs[j + 1..];
    assert runs[..j][i] == runs[i];
  }

  lemma {:induction false} OncePresent(runs: seq<Run>, run: Run)
    requires DistinctCheckers(runs)
    ensures multiset(runs)[run] <= 1
  {
    if runs != [] {
      var n := |runs| - 1;
      OncePresent(runs[..n], run);
      assert runs == runs[..n] + [runs[n]];
    }
  }

  // ---------------------------------------------------------------- the selection

  /** Position of the checker in insertion order, or the number of checkers. */
  function FindChecker(latest: seq<Run>, checker: Text): (i: nat)
    ensures i <= |latest|
    ensures i < |latest| ==> latest[i].checkerId == checker
    ensures i == |latest| ==> forall j :: 0 <= j < i ==> latest[j].checkerId != checker
  {
    if latest == [] || latest[0].checkerId == checker then 0 else 1 + FindChecker(latest[1..], checker)
  }

  function GetChecker(latest: seq<Run>, checker: Text): Option<Run> {
    var i := FindChecker(latest, checker);
    if i < |latest| then Some(latest[i]) else None
  }

  lemma GetAt(latest: seq<Run>, i: nat, checker: Text)
    requires DistinctCheckers(latest) && i < |latest| && latest[i].checkerId == checker
    ensures GetChecker(latest, checker) == Some(latest[i])
  {
  }

  lemma Replaced(latest: seq<Run>, i: nat, run: Run, checker: Text)
    requires DistinctCheckers(latest) && i < |latest| && latest[i].checkerId == run.checkerId
    ensures DistinctCheckers(latest[i := run])
    ensures GetChecker(latest[i := run], checker) == if checker == run.checkerId then Some(run) else GetChecker(latest, checker)
  {
    if checker == run.checkerId {
      GetAt(latest[i := run], i, checker);
    } else if GetChecker(latest, checker).Some? {
      GetAt(latest[i := run], FindChecker(latest, checker), checker);
    }
  }

  lemma Extended(latest: seq<Run>, run: Run, checker: Text)
    requires DistinctCheckers(latest) && GetChecker(latest, run.checkerId).None?
    ensures DistinctCheckers(latest + [run])
    ensures GetChecker(latest + [run], checker) == if checker == run.checkerId then Some(run) else GetChecker(latest, checker)
  {
    if checker == run.checkerId {
      GetAt(latest + [run], |latest|, checker);
    } else if GetChecker(latest, checker).Some? {
      GetAt(latest + [run], FindChecker(latest, checker), checker);
    }
  }

  /** The first loop: the newest run of every checker, in order of appearance, and the ambiguous checkers. */
  method NewestRuns(runs: seq<Run>, task: Text) returns (latest: seq<Run>, ambiguous: set<Text>)
    ensures DistinctCheckers(latest)
    ensures forall c :: GetChecker(latest, c) == Latest(runs, task, c)
    ensures forall c :: c in ambiguous <==> Ambiguous(runs, task, c)
  {
    latest, ambiguous := [], {};
    for i := 0 to |runs|
      invariant DistinctCheckers(latest)
      invariant forall c :: GetChecker(latest, c) == Latest(runs[..i], task, c)
      invariant forall c :: c in ambiguous <==> Ambiguous(runs[..i], task, c)
    {
      var run := runs[i];
      var next := i + 1;
      assert runs[..next][..i] == runs[..i] && runs[..next][i] == run;
      if !Relevant(run, task) { continue; }
      var at := FindChecker(latest, run.checkerId);
      ghost var prior := GetChecker(latest, run.checkerId);
      if at < |latest| && latest[at].sequence == run.sequence && latest[at].id != run.id {
        ambiguous := ambiguous + {run.checkerId};
      }
      ghost var before := latest;
      if at == |latest| {
        forall c ensures GetChecker(latest + [run], c) == if c == run.checkerId then Some(run) else GetChecker(latest, c) {
          Extended(latest, run, c);
        }
        Extended(latest, run, run.checkerId);
        latest := latest + [run];
      } else if run.sequence > latest[at].sequence {
        var updated := latest[at := run];
        forall c ensures GetChecker(updated, c) == if c == run.checkerId then Some(run) else GetChecker(latest, c) {
          Replaced(latest, at, run, c);
        }
        Replaced(latest, at, run, run.checkerId);
        latest := updated;
      }
    }
    assert runs[..|runs|] == runs;
  }

  predicate NoRepeats(reasons: seq<Reason>) {
    forall i, j :: 0 <= i < j < |reasons| ==> reasons[i] != reasons[j]
  }

  /**
   selectCurrentValidationEvidence: exactly the newest runs that count, sorted, at most one per
   checker; and exactly the reasons of the others.
   */
  method SelectCurrentValidationEvidence(input: Input) returns (runs: seq<Run>, reasons: seq<Reason>)
    ensures forall r :: r in runs <==> Chosen(r, input)
    ensures Ascending(runs) && DistinctCheckers(runs)
    ensures forall why :: why in reasons <==> exists r :: IsNewest(r, input) && Verdict(r, input) == Some(why)
    ensures NoRepeats(reasons)
  {
    hide Latest, Ambiguous, VerdictGiven, Inserted, IsNewest, Rejected;
    var latest, ambiguous := NewestRuns(input.runs, input.taskRunId);
    var sorted := SortedBySequence(latest);
    SortedFacts(latest);
    DistinctPermuted(latest, sorted);
    NewestListed(latest, input);
    hide SortedBySequence;
    NothingRejected(input);
    runs, reasons := [], [];
    for i := 0 to |sorted|
      invariant forall r :: r in runs <==> r in sorted[..i] && Verdict(r, input).None?
      invariant Ascending(runs) && DistinctCheckers(runs)
      invariant forall why :: why in reasons <==> Rejected(sorted[..i], input, why)
      invariant NoRepeats(reasons)
    {
      var run := sorted[i];
      assert sorted[..i + 1] == sorted[..i] + [run];
      var why := VerdictGiven(run, input, run.checkerId in ambiguous);
      RejectedMore(sorted[..i], run, input);
      KeepsOrder(sorted, i, runs);
      if why.Some? {
        if why.value !in reasons {
          reasons := reasons + [why.value];
        }
        continue;
      }
      runs := runs + [run];
    }
    assert sorted[..|sorted|] == sorted;
    RejectedNewest(sorted, input);
  }

  predicate Rejected(runs: seq<Run>, input: Input, why: Reason) {
    exists i :: 0 <= i < |runs| && Verdict(runs[i], input) == Some(why)
  }

  lemma NothingRejected(input: Input)
    ensures forall why :: !Rejected([], input, why)
  {
  }

  lemma RejectedMore(runs: seq<Run>, run: Run, input: Input)
    ensures forall why :: Rejected(runs + [run], input, why) <==> Rejected(runs, input, why) || Verdict(run, input) == Some(why)
  {
    hide Verdict;
    forall why ensures Rejected(runs + [run], input, why) <==> Rejected(runs, input, why) || Verdict(run, input) == Some(why) {
      var more := runs + [run];
      if i :| 0 <= i < |runs| && Verdict(runs[i], input) == Some(why) {
        assert more[i] == runs[i];
      }
      assert more[|runs|] == run;
    }
  }

  lemma RejectedNewest(runs: seq<Run>, input: Input)
    requires forall r :: r in runs <==> IsNewest(r, input)
    ensures forall why :: Rejected(runs, input, why) <==> exists r :: IsNewest(r, input) && Verdict(r, input) == Some(why)
  {
    hide Verdict, IsNewest;
    forall why | exists r :: IsNewest(r, input) && Verdict(r, input) == Some(why) ensures Rejected(runs, input, why) {
      var r :| IsNewest(r, input) && Verdict(r, input) == Some(why);
      var i :| 0 <= i < |runs| && runs[i] == r;
    }
  }

  lemma KeepsOrder(sorted: seq<Run>, i: nat, runs: seq<Run>)
    requires i < |sorted| && Ascending(sorted) && DistinctCheckers(sorted) && Ascending(runs) && DistinctCheckers(runs)
    requires forall r :: r in runs ==> r in sorted[..i]
    ensures Ascending(runs + [sorted[i]]) && DistinctCheckers(runs + [sorted[i]])
  {
    forall j | 0 <= j < |runs| ensures runs[j].sequence <= sorted[i].sequence && runs[j].checkerId != sorted[i].checkerId {
      assert runs[j] in sorted[..i];
      var k :| 0 <= k < i && sorted[k] == runs[j];
    }
  }

  lemma NewestListed(latest: seq<Run>, input: Input)
    requires DistinctCheckers(latest)
    requires forall c :: GetChecker(latest, c) == Latest(input.runs, input.taskRunId, c)
    ensures forall r :: r in latest <==> IsNewest(r, input)
  {
    forall r ensures r in latest <==> IsNewest(r, input) {
      if r in latest {
        var i :| 0 <= i < |latest| && latest[i] == r;
        GetAt(latest, i, r.checkerId);
      }
    }
  }

  // ---------------------------------------------------------------- what a selected run proves

  /**
   A selected run is relevant, recorded, finished, current and linked to a terminal step that
   agrees with it; no run of its checker is newer, whatever its status, and none as new has
   another identifier.
   */
  lemma ChosenSound(r: Run, input: Input)
    requires Chosen(r, input)
    ensures r in input.runs && Relevant(r, input.taskRunId)
    ensures forall other :: other in input.runs && Of(other, input.taskRunId, r.checkerId) ==>
              other.sequence < r.sequence || (other.sequence == r.sequence && other.id == r.id)
    ensures Current(r, input.current) && r.status in {Completed, Failed} && IsSafeInteger(r.sequence) && r.sequence >= 1.0
    ensures Linked(r, StepOf(input.steps, input.taskRunId, r.stepId)) && OutputFits(r, OutputOf(r, input))
    ensures r.status.Completed? ==> r.exitCode.Some? && IsInteger(r.exitCode.value)
  {
    LatestIsHighest(input.runs, input.taskRunId, r.checkerId);
  }

  /** Where sequences are distinct, as the store assigns them, the order in which runs are listed does not matter. */
  lemma DistinctMeansNewest(r: Run, input: Input)
    requires DistinctSequences(input.runs, input.taskRunId)
    ensures Chosen(r, input) <==>
            && r in input.runs && Relevant(r, input.taskRunId) && VerdictGiven(r, input, false).None?
            && forall other :: other in input.runs && Of(other, input.taskRunId, r.checkerId) ==> other.sequence <= r.sequence
  {
    DistinctUnambiguous(input.runs, input.taskRunId, r.checkerId);
    LatestIsHighest(input.runs, input.taskRunId, r.checkerId);
    var top := Latest(input.runs, input.taskRunId, r.checkerId);
    if r in input.runs && top.Some? && r != top.value && r.sequence == top.value.sequence {
      var i, j :| 0 <= i < |input.runs| && 0 <= j < |input.runs| && input.runs[i] == r && input.runs[j] == top.value;
    }
  }

  // ---------------------------------------------------------------- when the order of the runs matters

  /** Different runs of the checker that share a sequence. */
  predicate Tied(a: Run, b: Run, task: Text, checker: Text) {
    Of(a, task, checker) && Of(b, task, checker) && a.sequence == b.sequence && a.id != b.id
  }

  /** No run of the checker is higher. */
  ghost predicate IsTop(r: Run, runs: seq<Run>, task: Text, checker: Text) {
    && r in runs && Of(r, task, checker)
    && forall other :: other in runs && Of(other, task, checker) ==> other.sequence <= r.sequence
  }

  ghost predicate TiedSomewhere(runs: seq<Run>, task: Text, checker: Text) {
    exists a, b :: a in runs && b in runs && Tied(a, b, task, checker)
  }

  ghost predicate TiedOnTop(runs: seq<Run>, task: Text, checker: Text) {
    exists a, b :: IsTop(a, runs, task, checker) && IsTop(b, runs, task, checker) && Tied(a, b, task, checker)
  }

  /** A run that ties with an earlier one while nothing before it is higher. */
  predicate TiesAt(runs: seq<Run>, i: nat, j: nat, task: Text, checker: Text) {
    && i < j < |runs| && Tied(runs[i], runs[j], task, checker)
    && forall k :: 0 <= k < j && Of(runs[k], task, checker) ==> runs[k].sequence <= runs[j].sequence
  }

  /** A checker is ambiguous exactly if such a run exists. */
  lemma {:induction false} AmbiguousExact(runs: seq<Run>, task: Text, checker: Text)
    ensures Ambiguous(runs, task, checker) <==> exists i, j :: TiesAt(runs, i, j, task, checker)
  {
    hide Of;
    if runs != [] {
      var n := |runs| - 1;
      var front := runs[..n];
      AmbiguousExact(front, task, checker);
      forall i: nat, j: nat | j < n ensures TiesAt(front, i, j, task, checker) <==> TiesAt(runs, i, j, task, checker) {
      }
      LatestIsHighest(front, task, checker);
      if Ambiguous(runs, task, checker) && !Ambiguous(front, task, checker) {
        var i :| 0 <= i < n && front[i] == Latest(front, task, checker).value;
        assert TiesAt(runs, i, n, task, checker);
      }
      if i: nat, j: nat :| TiesAt(runs, i, j, task, checker) {
        if j == n {
          LastTies(runs, i, task, checker);
        } else {
          assert TiesAt(front, i, j, task, checker);
        }
      }
    }
  }

  /** A run of the task for the same checker that checks something. */
  predicate Rival(run: Run, r: Run, task: Text) {
    run.taskRunId == task && run.checkerId == r.checkerId && |run.kinds| > 0
  }

  /** The run at the index is the first of the highest among its rivals. */
  predicate FirstHighest(runs: seq<Run>, i: nat, task: Text) {
    && i < |runs| && Rival(runs[i], runs[i], task)
    && (forall j :: 0 <= j < i && Rival(runs[j], runs[i], task) ==> runs[j].sequence < runs[i].sequence)
    && (forall j :: i < j < |runs| && Rival(runs[j], runs[i], task) ==> runs[j].sequence <= runs[i].sequence)
  }

  /** Two rivals of the run share a sequence under different identifiers, and nothing before them is higher. */
  ghost predicate Disputed(runs: seq<Run>, r: Run, task: Text) {
    exists i, j ::
      && 0 <= i < j < |runs| && Rival(runs[i], r, task) && Rival(runs[j], r, task)
      && runs[i].sequence == runs[j].sequence && runs[i].id != runs[j].id
      && forall k :: 0 <= k < j && Rival(runs[k], r, task) ==> runs[k].sequence <= runs[j].sequence
  }

  lemma DisputedExact(runs: seq<Run>, r: Run, task: Text)
    ensures Disputed(runs, r, task) <==> Ambiguous(runs, task, r.checkerId)
  {
    hide Ambiguous;
    AmbiguousExact(runs, task, r.checkerId);
    assert forall run :: Rival(run, r, task) <==> Of(run, task, r.checkerId);
    hide Rival, Of;
    if i: nat, j: nat :| TiesAt(runs, i, j, task, r.checkerId) {
      assert 0 <= i < j < |runs| && Rival(runs[i], r, task) && Rival(runs[j], r, task);
    }
    if i, j :|
      && 0 <= i < j < |runs| && Rival(runs[i], r, task) && Rival(runs[j], r, task)
      && runs[i].sequence == runs[j].sequence && runs[i].id != runs[j].id
      && forall k :: 0 <= k < j && Rival(runs[k], r, task) ==> runs[k].sequence <= runs[j].sequence
    {
      assert TiesAt(runs, i, j, task, r.checkerId);
    }
  }

  lemma {:induction false} LatestAt(runs: seq<Run>, task: Text, checker: Text)
    requires Latest(runs, task, checker).Some?
    ensures exists i: nat :: FirstHighest(runs, i, task) && runs[i] == Latest(runs, task, checker).value && runs[i].checkerId == checker
  {
    var n := |runs| - 1;
    var front, prior := runs[..n], Latest(runs[..n], task, checker);
    LatestIsHighest(front, task, checker);
    if Of(runs[n], task, checker) && (prior.None? || runs[n].sequence > prior.value.sequence) {
      assert forall j :: 0 <= j < n && Rival(runs[j], runs[n], task) ==> runs[j] in front && Of(runs[j], task, checker);
      assert FirstHighest(runs, n, task);
    } else {
      LatestAt(front, task, checker);
      hide Latest, Ambiguous;
      var i: nat :| FirstHighest(front, i, task) && front[i] == prior.value && front[i].checkerId == checker;
      HighestStays(runs, i, task);
    }
  }

  lemma HighestStays(runs: seq<Run>, i: nat, task: Text)
    requires runs != [] && FirstHighest(runs[..|runs| - 1], i, task)
    requires Rival(runs[|runs| - 1], runs[i], task) ==> runs[|runs| - 1].sequence <= runs[i].sequence
    ensures FirstHighest(runs, i, task)
  {
    assert forall j :: 0 <= j < |runs| - 1 ==> runs[..|runs| - 1][j] == runs[j];
  }

  /** At most one place is that. */
  lemma FirstHighestOnce(runs: seq<Run>, i: nat, j: nat, task: Text)
    requires FirstHighest(runs, i, task) && FirstHighest(runs, j, task) && runs[i].checkerId == runs[j].checkerId
    ensures i == j
  {
    if i < j {
      assert Rival(runs[i], runs[j], task) && Rival(runs[j], runs[i], task);
    } else if j < i {
      assert Rival(runs[i], runs[j], task) && Rival(runs[j], runs[i], task);
    }
  }

  lemma NewestExact(r: Run, input: Input)
    ensures IsNewest(r, input) <==> exists i: nat :: FirstHighest(input.runs, i, input.taskRunId) && input.runs[i] == r
  {
    var runs, task := input.runs, input.taskRunId;
    var top := Latest(runs, task, r.checkerId);
    LatestIsHighest(runs, task, r.checkerId);
    hide Latest;
    if top.Some? {
      LatestAt(runs, task, r.checkerId);
      var i: nat :| FirstHighest(runs, i, task) && runs[i] == top.value && runs[i].checkerId == r.checkerId;
      if j: nat :| FirstHighest(runs, j, task) && runs[j] == r {
        FirstHighestOnce(runs, i, j, task);
      }
    } else if j: nat :| FirstHighest(runs, j, task) && runs[j] == r {
      Competing(runs, j, task);
    }
  }

  lemma Competing(runs: seq<Run>, j: nat, task: Text)
    requires FirstHighest(runs, j, task)
    ensures runs[j] in runs && Of(runs[j], task, runs[j].checkerId)
  {
  }

  /** Which runs are chosen, over the lists that were read: the first of the highest, undisputed, current, finished and linked. */
  lemma ChosenExact(r: Run, input: Input)
    ensures Chosen(r, input) <==>
            && (exists i: nat :: FirstHighest(input.runs, i, input.taskRunId) && input.runs[i] == r)
            && !Disputed(input.runs, r, input.taskRunId) && IsOrdinal(r.sequence) && AtRest(r, input.current)
            && (r.status == Failed || (r.status == Completed && r.exitCode.Some? && r.exitCode.value.Floor as real == r.exitCode.value))
            && StepAgrees(r, input) && OutputAgrees(r, input)
  {
    NewestExact(r, input);
    DisputedExact(input.runs, r, input.taskRunId);
    VerdictExact(r, input);
    hide IsNewest, FirstHighest, Disputed, Ambiguous, Verdict, StepAgrees, OutputAgrees, AtRest, IsOrdinal;
  }

  lemma LastTies(runs: seq<Run>, i: nat, task: Text, checker: Text)
    requires runs != [] && TiesAt(runs, i, |runs| - 1, task, checker)
    ensures Ambiguous(runs, task, checker)
  {
    hide Of;
    var front := runs[..|runs| - 1];
    LatestIsHighest(front, task, checker);
    assert front[i] in front;
  }

  lemma TopTieAmbiguous(runs: seq<Run>, task: Text, checker: Text)
    requires TiedOnTop(runs, task, checker)
    ensures Ambiguous(runs, task, checker)
  {
    LatestIsHighest(runs, task, checker);
  }

  lemma NoTieUnambiguous(runs: seq<Run>, task: Text, checker: Text)
    requires !TiedSomewhere(runs, task, checker)
    ensures !Ambiguous(runs, task, checker)
  {
    AmbiguousExact(runs, task, checker);
  }

  /** In ascending order every tie shows. */
  lemma AscendingShowsTies(runs: seq<Run>, task: Text, checker: Text)
    requires Ascending(runs) && TiedSomewhere(runs, task, checker)
    ensures Ambiguous(runs, task, checker)
  {
    var a, b :| a in runs && b in runs && Tied(a, b, task, checker);
    var i :| 0 <= i < |runs| && runs[i] == a;
    var j :| 0 <= j < |runs| && runs[j] == b;
    AmbiguousExact(runs, task, checker);
    if i < j {
      assert TiesAt(runs, i, j, task, checker);
    } else {
      assert TiesAt(runs, j, i, task, checker);
    }
  }

  lemma {:induction false} FirstIsLatest(top: Run, rest: seq<Run>, task: Text, checker: Text)
    requires Of(top, task, checker)
    requires forall r :: r in rest && Of(r, task, checker) ==> r.sequence <= top.sequence
    ensures Latest([top] + rest, task, checker) == Some(top)
    decreases |rest|
  {
    hide Of;
    var runs := [top] + rest;
    if rest == [] {
      assert runs[..0] == [];
    } else {
      var n := |rest| - 1;
      FirstIsLatest(top, rest[..n], task, checker);
      assert runs[..|runs| - 1] == [top] + rest[..n];
      assert rest[n] in rest;
    }
  }

  /** With a highest run first, only a tie with it shows. */
  lemma TopFirst(runs: seq<Run>, top: Run, task: Text, checker: Text) returns (moved: seq<Run>)
    requires IsTop(top, runs, task, checker)
    ensures multiset(moved) == multiset(runs)
    ensures Latest(moved, task, checker) == Some(top)
    ensures Ambiguous(moved, task, checker) ==> TiedOnTop(runs, task, checker)
  {
    var at :| 0 <= at < |runs| && runs[at] == top;
    var rest := runs[..at] + runs[at + 1..];
    moved := [top] + rest;
    assert runs == runs[..at] + [top] + runs[at + 1..];
    FirstIsLatest(top, rest, task, checker);
    hide Ambiguous, Latest, IsTop, TiedOnTop;
    SameTies(runs, moved, task, checker);
    if Ambiguous(moved, task, checker) {
      TiesWithFirst(moved, task, checker);
    }
  }

  lemma TiesWithFirst(runs: seq<Run>, task: Text, checker: Text)
    requires runs != [] && IsTop(runs[0], runs, task, checker) && Ambiguous(runs, task, checker)
    ensures TiedOnTop(runs, task, checker)
  {
    hide Ambiguous, Of;
    AmbiguousExact(runs, task, checker);
    var i: nat, j: nat :| TiesAt(runs, i, j, task, checker);
    assert IsTop(runs[i], runs, task, checker) && IsTop(runs[j], runs, task, checker);
  }

  lemma SameRuns(runs: seq<Run>, permuted: seq<Run>)
    requires multiset(permuted) == multiset(runs)
    ensures forall r :: r in permuted <==> r in runs
  {
    forall r ensures r in permuted <==> r in runs {
      assert r in multiset(permuted) <==> r in multiset(runs);
    }
  }

  lemma SameTies(runs: seq<Run>, permuted: seq<Run>, task: Text, checker: Text)
    requires multiset(permuted) == multiset(runs)
    ensures forall r :: IsTop(r, permuted, task, checker) <==> IsTop(r, runs, task, checker)
    ensures TiedOnTop(permuted, task, checker) <==> TiedOnTop(runs, task, checker)
    ensures TiedSomewhere(permuted, task, checker) <==> TiedSomewhere(runs, task, checker)
  {
    SameRuns(runs, permuted);
  }

  /**
   Whether a checker is ambiguous is the same in every order of the runs exactly if its runs tie at their highest
   sequence or tie nowhere.
   */
  lemma AmbiguityOrderExact(runs: seq<Run>, task: Text, checker: Text)
    ensures (forall permuted | multiset(permuted) == multiset(runs) ::
               Ambiguous(permuted, task, checker) == Ambiguous(runs, task, checker)) <==>
            TiedOnTop(runs, task, checker) || !TiedSomewhere(runs, task, checker)
  {
    hide Ambiguous, Of, Tied, IsTop, TiedSomewhere, TiedOnTop;
    if TiedOnTop(runs, task, checker) || !TiedSomewhere(runs, task, checker) {
      forall permuted | multiset(permuted) == multiset(runs)
        ensures Ambiguous(permuted, task, checker) == TiedOnTop(runs, task, checker)
      {
        SettledAmbiguity(runs, permuted, task, checker);
      }
      assert Ambiguous(runs, task, checker) == TiedOnTop(runs, task, checker);
    } else {
      var sorted := TiesShown(runs, task, checker);
      var top := SomeTop(runs, task, checker);
      var moved := TopFirst(runs, top, task, checker);
      var other := if Ambiguous(runs, task, checker) then moved else sorted;
      assert Ambiguous(other, task, checker) != Ambiguous(runs, task, checker);
      assert multiset(other) == multiset(runs);
    }
  }

  lemma SettledAmbiguity(runs: seq<Run>, permuted: seq<Run>, task: Text, checker: Text)
    requires multiset(permuted) == multiset(runs)
    requires TiedOnTop(runs, task, checker) || !TiedSomewhere(runs, task, checker)
    ensures Ambiguous(permuted, task, checker) == TiedOnTop(runs, task, checker)
  {
    hide Ambiguous, Of;
    SameTies(runs, permuted, task, checker);
    if TiedOnTop(runs, task, checker) {
      TopTieAmbiguous(permuted, task, checker);
    } else {
      NoTieUnambiguous(permuted, task, checker);
    }
  }

  lemma TiesShown(runs: seq<Run>, task: Text, checker: Text) returns (sorted: seq<Run>)
    requires TiedSomewhere(runs, task, checker)
    ensures multiset(sorted) == multiset(runs) && Ambiguous(sorted, task, checker)
  {
    hide Ambiguous, SortedBySequence, Of;
    sorted := SortedBySequence(runs);
    SortedFacts(runs);
    SameTies(runs, sorted, task, checker);
    AscendingShowsTies(sorted, task, checker);
  }

  lemma SomeTop(runs: seq<Run>, task: Text, checker: Text) returns (top: Run)
    requires TiedSomewhere(runs, task, checker)
    ensures IsTop(top, runs, task, checker)
  {
    LatestIsHighest(runs, task, checker);
    top := Latest(runs, task, checker).value;
  }

  /** The same input with its runs listed in another order. */
  function Relisted(input: Input, runs: seq<Run>): Input {
    input.(runs := runs)
  }

  /** What is selected of a checker is the same in every order of the runs. */
  ghost predicate OrderFree(input: Input, checker: Text) {
    forall permuted, r: Run | multiset(permuted) == multiset(input.runs) && r.checkerId == checker ::
      Chosen(r, Relisted(input, permuted)) <==> Chosen(r, input)
  }

  /**
   The highest runs tie, or none of them would count, or nothing ties and the highest run is one.
   */
  ghost predicate Settled(input: Input, checker: Text) {
    var runs, task := input.runs, input.taskRunId;
    || TiedOnTop(runs, task, checker)
    || (forall r :: IsTop(r, runs, task, checker) ==> VerdictGiven(r, input, false).Some?)
    || (!TiedSomewhere(runs, task, checker) &&
        forall r, other :: IsTop(r, runs, task, checker) && IsTop(other, runs, task, checker) ==> r == other)
  }

  /** A run is selected exactly if it is the newest found, of an unambiguous checker, and would count. */
  lemma ChosenMeans(r: Run, input: Input, permuted: seq<Run>)
    ensures Chosen(r, Relisted(input, permuted)) <==>
            && Latest(permuted, input.taskRunId, r.checkerId) == Some(r)
            && !Ambiguous(permuted, input.taskRunId, r.checkerId) && VerdictGiven(r, input, false).None?
  {
    hide Latest, Ambiguous;
    assert OutputOf(r, Relisted(input, permuted)) == OutputOf(r, input);
  }

  lemma OrderFreeExact(input: Input, checker: Text)
    ensures OrderFree(input, checker) <==> Settled(input, checker)
  {
    hide Ambiguous, Latest, Of, Tied, IsTop, TiedSomewhere, TiedOnTop, VerdictGiven, Chosen;
    if Settled(input, checker) {
      forall permuted, r: Run | multiset(permuted) == multiset(input.runs) && r.checkerId == checker
        ensures Chosen(r, Relisted(input, permuted)) <==> Chosen(r, input)
      {
        SettledChoice(input, permuted, r);
      }
    } else {
      var r, p, q := Unsettled(input, checker);
      assert !OrderFree(input, checker);
    }
  }

  lemma SettledChoice(input: Input, permuted: seq<Run>, r: Run)
    requires Settled(input, r.checkerId) && multiset(permuted) == multiset(input.runs)
    ensures Chosen(r, Relisted(input, permuted)) <==> Chosen(r, input)
  {
    hide Ambiguous, Latest, Of, Tied, TiedSomewhere, TiedOnTop, VerdictGiven, Chosen;
    var task, checker := input.taskRunId, r.checkerId;
    ChosenMeans(r, input, permuted);
    ChosenMeans(r, input, input.runs);
    assert Relisted(input, input.runs) == input;
    SameTies(input.runs, permuted, task, checker);
    LatestIsTop(permuted, task, checker);
    LatestIsTop(input.runs, task, checker);
    if TiedOnTop(input.runs, task, checker) || !TiedSomewhere(input.runs, task, checker) {
      SettledAmbiguity(input.runs, permuted, task, checker);
      SettledAmbiguity(input.runs, input.runs, task, checker);
    }
    if IsTop(r, input.runs, task, checker) {
      SomeLatest(permuted, r, task, checker);
      SomeLatest(input.runs, r, task, checker);
    }
  }

  lemma LatestIsTop(runs: seq<Run>, task: Text, checker: Text)
    ensures Latest(runs, task, checker).Some? ==> IsTop(Latest(runs, task, checker).value, runs, task, checker)
  {
    LatestIsHighest(runs, task, checker);
  }

  lemma SomeLatest(runs: seq<Run>, r: Run, task: Text, checker: Text)
    requires IsTop(r, runs, task, checker)
    ensures Latest(runs, task, checker).Some?
  {
    LatestIsHighest(runs, task, checker);
  }

  lemma Unsettled(input: Input, checker: Text) returns (r: Run, p: seq<Run>, q: seq<Run>)
    requires !Settled(input, checker)
    ensures r.checkerId == checker && multiset(p) == multiset(input.runs) && multiset(q) == multiset(input.runs)
    ensures Chosen(r, Relisted(input, p)) && !Chosen(r, Relisted(input, q))
  {
    hide Ambiguous, Latest, Tied, TiedSomewhere, TiedOnTop, VerdictGiven, Chosen;
    var runs, task := input.runs, input.taskRunId;
    r :| IsTop(r, runs, task, checker) && VerdictGiven(r, input, false).None?;
    p := TopFirst(runs, r, task, checker);
    ChosenMeans(r, input, p);
    if TiedSomewhere(runs, task, checker) {
      q := TiesShown(runs, task, checker);
    } else {
      var a, b :| IsTop(a, runs, task, checker) && IsTop(b, runs, task, checker) && a != b;
      q := TopFirst(runs, if a == r then b else a, task, checker);
    }
    ChosenMeans(r, input, q);
  }

  /** The whole selection is the same in every order exactly if every checker is settled. */
  lemma SelectionOrderExact(input: Input)
    ensures (forall permuted, r: Run | multiset(permuted) == multiset(input.runs) ::
               Chosen(r, Relisted(input, permuted)) <==> Chosen(r, input)) <==>
            forall checker :: Settled(input, checker)
  {
    hide Settled, Chosen;
    forall checker
      ensures Settled(input, checker) <==> OrderFree(input, checker)
    {
      OrderFreeExact(input, checker);
    }
    if forall checker :: Settled(input, checker) {
      forall permuted, r: Run | multiset(permuted) == multiset(input.runs)
        ensures Chosen(r, Relisted(input, permuted)) <==> Chosen(r, input)
      {
        assert OrderFree(input, r.checkerId);
      }
    }
  }

  /** What a checker contributes to the result. */
  datatype Outcome = Absent | Selected(run: Run) | Because(reason: Reason)

  function OutcomeOf(input: Input, checker: Text): Outcome {
    match Latest(input.runs, input.taskRunId, checker)
    case None => Absent
    case Some(run) => OutcomeGiven(run, input, Ambiguous(input.runs, input.taskRunId, checker))
  }

  function OutcomeGiven(run: Run, input: Input, ambiguous: bool): Outcome {
    match VerdictGiven(run, input, ambiguous)
    case None => Selected(run)
    case Some(why) => Because(why)
  }

  /** The selected runs and the reasons are those outcomes. */
  lemma OutcomesAreEvidence(input: Input)
    ensures forall r :: Chosen(r, input) <==> OutcomeOf(input, r.checkerId) == Selected(r)
    ensures forall why :: (exists r :: IsNewest(r, input) && Verdict(r, input) == Some(why)) <==>
              exists checker :: OutcomeOf(input, checker) == Because(why)
  {
    hide Latest, Ambiguous, VerdictGiven;
    forall why, checker | OutcomeOf(input, checker) == Because(why)
      ensures exists r :: IsNewest(r, input) && Verdict(r, input) == Some(why)
    {
      LatestOfChecker(input.runs, input.taskRunId, checker);
      var r := Latest(input.runs, input.taskRunId, checker).value;
      assert IsNewest(r, input) && Verdict(r, input) == Some(why);
    }
    forall r, why | IsNewest(r, input) && Verdict(r, input) == Some(why)
      ensures OutcomeOf(input, r.checkerId) == Because(why)
    {
    }
  }

  lemma LatestOfChecker(runs: seq<Run>, task: Text, checker: Text)
    ensures Latest(runs, task, checker).Some? ==> Latest(runs, task, checker).value.checkerId == checker
  {
    LatestIsHighest(runs, task, checker);
  }

  /** The highest runs tie, or are all refused for their ordering, or nothing ties and all come to the same. */
  ghost predicate OutcomeSettled(input: Input, checker: Text) {
    var runs, task := input.runs, input.taskRunId;
    || TiedOnTop(runs, task, checker)
    || (forall r :: IsTop(r, runs, task, checker) ==> OutcomeGiven(r, input, false) == Because(Ordering))
    || (!TiedSomewhere(runs, task, checker) &&
        forall r, other :: IsTop(r, runs, task, checker) && IsTop(other, runs, task, checker) ==>
          OutcomeGiven(r, input, false) == OutcomeGiven(other, input, false))
  }

  lemma OutcomeRelisted(input: Input, permuted: seq<Run>, checker: Text)
    ensures var top := Latest(permuted, input.taskRunId, checker);
            OutcomeOf(Relisted(input, permuted), checker) ==
            if top.None? then Absent
            else if Ambiguous(permuted, input.taskRunId, checker) then Because(Ordering)
            else OutcomeGiven(top.value, input, false)
  {
    hide Latest, Ambiguous;
    if Latest(permuted, input.taskRunId, checker).Some? {
      var top := Latest(permuted, input.taskRunId, checker).value;
      assert OutputOf(top, Relisted(input, permuted)) == OutputOf(top, input);
    }
  }

  /** A checker's outcome, its run or its reason, is the same in every order of the runs exactly if it is settled. */
  lemma OutcomeOrderExact(input: Input, checker: Text)
    ensures (forall permuted | multiset(permuted) == multiset(input.runs) ::
               OutcomeOf(Relisted(input, permuted), checker) == OutcomeOf(input, checker)) <==>
            OutcomeSettled(input, checker)
  {
    hide OutcomeOf, OutcomeGiven, TiedOnTop, TiedSomewhere, IsTop;
    assert Relisted(input, input.runs) == input;
    if OutcomeSettled(input, checker) {
      forall permuted | multiset(permuted) == multiset(input.runs)
        ensures OutcomeOf(Relisted(input, permuted), checker) == OutcomeOf(input, checker)
      {
        SettledOutcome(input, permuted, checker);
      }
    } else {
      var p, q := UnsettledOutcome(input, checker);
      var other := if OutcomeOf(Relisted(input, p), checker) == OutcomeOf(input, checker) then q else p;
      assert multiset(other) == multiset(input.runs);
      assert OutcomeOf(Relisted(input, other), checker) != OutcomeOf(input, checker);
    }
  }

  lemma SettledOutcome(input: Input, permuted: seq<Run>, checker: Text)
    requires OutcomeSettled(input, checker) && multiset(permuted) == multiset(input.runs)
    ensures OutcomeOf(Relisted(input, permuted), checker) == OutcomeOf(input, checker)
  {
    hide Ambiguous, Latest, Of, Tied, TiedSomewhere, TiedOnTop, OutcomeOf, OutcomeGiven;
    var runs, task := input.runs, input.taskRunId;
    OutcomeRelisted(input, permuted, checker);
    OutcomeRelisted(input, runs, checker);
    assert Relisted(input, runs) == input;
    SameTies(runs, permuted, task, checker);
    LatestIsTop(permuted, task, checker);
    LatestIsTop(runs, task, checker);
    if TiedOnTop(runs, task, checker) || !TiedSomewhere(runs, task, checker) {
      SettledAmbiguity(runs, permuted, task, checker);
      SettledAmbiguity(runs, runs, task, checker);
    }
    if Latest(runs, task, checker).Some? {
      SomeLatest(permuted, Latest(runs, task, checker).value, task, checker);
    } else if Latest(permuted, task, checker).Some? {
      SomeLatest(runs, Latest(permuted, task, checker).value, task, checker);
    }
  }

  lemma UnsettledOutcome(input: Input, checker: Text) returns (p: seq<Run>, q: seq<Run>)
    requires !OutcomeSettled(input, checker)
    ensures multiset(p) == multiset(input.runs) && multiset(q) == multiset(input.runs)
    ensures OutcomeOf(Relisted(input, p), checker) != OutcomeOf(Relisted(input, q), checker)
  {
    hide Ambiguous, Latest, Tied, TiedSomewhere, TiedOnTop, OutcomeOf, OutcomeGiven;
    var runs, task := input.runs, input.taskRunId;
    if TiedSomewhere(runs, task, checker) {
      var r :| IsTop(r, runs, task, checker) && OutcomeGiven(r, input, false) != Because(Ordering);
      p := TopFirst(runs, r, task, checker);
      q := TiesShown(runs, task, checker);
      SameTies(runs, q, task, checker);
      SomeLatest(q, r, task, checker);
    } else {
      var a, b :| IsTop(a, runs, task, checker) && IsTop(b, runs, task, checker) &&
        OutcomeGiven(a, input, false) != OutcomeGiven(b, input, false);
      p := TopFirst(runs, a, task, checker);
      q := TopFirst(runs, b, task, checker);
    }
    OutcomeRelisted(input, p, checker);
    OutcomeRelisted(input, q, checker);
  }

  /** For example: a tie seen before a newer run makes the checker ambiguous for good, a tie seen after it does not. */
  lemma OrderMatters(a: Run, b: Run, c: Run)
    requires Relevant(a, a.taskRunId) && Of(b, a.taskRunId, a.checkerId) && Of(c, a.taskRunId, a.checkerId)
    requires a.sequence == b.sequence < c.sequence && a.id != b.id
    ensures Ambiguous([a, b, c], a.taskRunId, a.checkerId) && !Ambiguous([c, a, b], a.taskRunId, a.checkerId)
    ensures Latest([a, b, c], a.taskRunId, a.checkerId) == Latest([c, a, b], a.taskRunId, a.checkerId) == Some(c)
  {
    var task, checker := a.taskRunId, a.checkerId;
    var ab, ca := [a, b], [c, a];
    assert [a, b, c][..2] == ab && ab[..1] == [a] && [a][..0] == [];
    assert Latest([a], task, checker) == Some(a);
    assert Latest(ab, task, checker) == Some(a) && Ambiguous(ab, task, checker);
    assert [c, a, b][..2] == ca && ca[..1] == [c] && [c][..0] == [];
    assert Latest([c], task, checker) == Some(c) && !Ambiguous([c], task, checker);
    assert Latest(ca, task, checker) == Some(c) && !Ambiguous(ca, task, checker);
  }
}
