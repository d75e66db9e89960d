/**
 Cancelling one invocation at any moment (packages/agent/src/agent-planning-service.ts).
 */
module PlanningCancellation {
  import opened Prelude

  // The service is a step system: one step is what runs between two awaits, or one effect of the
  // store. Any number of callers cancel while the invocation is registered, checked, queued and
  // run, and the service may be shut down, at any moment.

  datatype Status = Queued | Running | Succeeded | Failed | Cancelled

  /** The store's conditional update: the row afterwards, which is also what the update returns. */
  function Written(row: Status, patch: Status): Status {
    if row == Cancelled || (patch == Cancelled && row in {Succeeded, Failed}) then row else patch
  }

  predicate Terminal(status: Status) {
    status in {Succeeded, Failed, Cancelled}
  }

  /** Where a call of `cancelInvocation` stands. */
  datatype Stage =
    | Reading
    | Decided(seen: Status)
    | Writing
    | Persisted(winner: Status)
    | Returned(status: Status)
    | Threw

  /**
   A cancellation; one started by `shutdown` aborts once more after it returned or threw. It has
   `fired` when it aborted the controllers.
   */
  datatype Canceller = Canceller(stage: Stage, shutdown: bool, fired: bool)

  /** Where the planner of the invocation stands, from creating the row to letting go of it. */
  datatype Planner =
    | Creating
    | Created
    | OwnCancel(stage: Stage)
    | Checking
    | Checked(cancelledSeen: bool)
    | Updating
    | Updated(winner: Status)
    | Preparing
    | Selecting
    | Waiting
    | Working
    | Invoked
    | Finishing
    | Finished
    | Released

  /** The entry of the invocation in the queue. */
  datatype Entry = Absent | Queueing | InFlight(aborted: bool) | Over

  datatype State = State(
    planner: Planner, row: Option<Status>, registered: bool, lifetime: bool, entry: Entry,
    cancellers: seq<Canceller>, sealed: bool, starts: nat)

  const INITIAL: State := State(Creating, None, false, false, Absent, [], false, 0)

  // ---------------------------------------------------------------- aborting

  /** queue.cancel: a waiting entry is dropped, one in flight has its signal fired. */
  function QueueCancelled(s: State): State {
    match s.entry
    case Queueing => s.(entry := Over, planner := Finishing)
    case InFlight(_) => s.(entry := InFlight(true))
    case _ => s
  }

  /** The end of a successful cancellation: the registered controller, if any, then the queue. */
  function Fired(s: State): State {
    QueueCancelled(if s.registered then s.(lifetime := true) else s)
  }

  // ---------------------------------------------------------------- cancelling

  /** One step of a cancellation that does not fail, and whether it fires. */
  function NextStage(stage: Stage, row: Option<Status>): (Stage, bool) {
    match stage
    case Reading => (if row.Some? then Decided(row.value) else Threw, false)
    case Decided(seen) => (if Terminal(seen) then Returned(seen) else Writing, false)
    case Writing => (if row.Some? then Persisted(Written(row.value, Cancelled)) else Threw, false)
    case Persisted(winner) => (Returned(winner), winner == Cancelled)
    case _ => (stage, false)
  }

  function StoreAfter(stage: Stage, row: Option<Status>): Option<Status> {
    if stage.Writing? && row.Some? then Some(Written(row.value, Cancelled)) else row
  }

  predicate Ended(stage: Stage) {
    stage.Returned? || stage.Threw?
  }

  function CancelStep(s: State, i: nat): State
    requires i < |s.cancellers|
  {
    var c := s.cancellers[i];
    if Ended(c.stage) then
      if c.shutdown then
        QueueCancelled(s.(lifetime := true, cancellers := s.cancellers[i := c.(fired := true)]))
      else s
    else
      var (stage, fires) := NextStage(c.stage, s.row);
      var t := s.(row := StoreAfter(c.stage, s.row), cancellers := s.cancellers[i := c.(stage := stage, fired := fires)]);
      if fires then Fired(t) else t
  }

  // ---------------------------------------------------------------- planning

  /** Leave through the catch block if a signal was aborted. */
  function Unless(aborted: bool, s: State, next: Planner): State {
    if aborted then s.(planner := Finishing) else s.(planner := next)
  }

  function Signalled(s: State): bool {
    s.lifetime || (s.entry.InFlight? && s.entry.aborted)
  }

  /** The planner up to the queue. `taskCancelled` is what it reads of the task at that moment. */
  function PlannerStep(s: State, taskCancelled: bool): State {
    match s.planner
    case Creating => s.(row := Some(Queued), planner := Created)
    case Created =>
      var t := s.(registered := true);
      t.(planner := if t.sealed then OwnCancel(Reading) else Checking)
    case OwnCancel(stage) =>
      if Ended(stage) then s.(lifetime := true, planner := if stage.Threw? then Finishing else Checking)
      else
        var (next, fires) := NextStage(stage, s.row);
        var t := s.(row := StoreAfter(stage, s.row), planner := OwnCancel(next));
        if fires then Fired(t) else t
    case Checking => s.(planner := Checked(s.row == Some(Cancelled) || taskCancelled))
    case Checked(cancelledSeen) =>
      var t := if cancelledSeen then s.(lifetime := true) else s;
      Unless(t.lifetime, t, Updating)
    case Updating =>
      if s.row.None? then s.(planner := Finishing)
      else s.(row := Some(Written(s.row.value, Running)), planner := Updated(Written(s.row.value, Running)))
    case Updated(winner) =>
      var t := if winner == Cancelled then s.(lifetime := true) else s;
      Unless(t.lifetime, t, Preparing)
    case Preparing => Unless(s.lifetime, s, Selecting)
    case Selecting => if s.lifetime then s.(planner := Finishing) else s.(planner := Waiting, entry := Queueing)
    case _ => s
  }

  predicate Planning(p: Planner) {
    p.OwnCancel? || p.Checking? || p.Checked? || p.Updating? || p.Updated? || p.Preparing? || p.Selecting?
  }

  /** The work of the queue entry: it checks both signals when called and again before the process starts. */
  function WorkStep(s: State): State {
    match s.entry
    case Queueing => s.(entry := InFlight(false))
    case InFlight(_) =>
      (match s.planner
       case Waiting => if Signalled(s) then s.(entry := Over, planner := Finishing) else s.(planner := Working)
       case Working =>
         if Signalled(s) then s.(entry := Over, planner := Finishing) else s.(planner := Invoked, starts := s.starts + 1)
       case _ => s)
    case _ => s
  }

  datatype Step =
    | Plan(taskCancelled: bool)
    | PlanFails
    | Work
    | WorkEnds
    | Conclude(outcome: Status)
    | Release
    | NewCancel
    | Cancel(i: nat)
    | CancelFails(i: nat)
    | Shutdown

  /** A step that is not enabled leaves the state alone. */
  function After(s: State, step: Step): State {
    match step
    case Plan(taskCancelled) => PlannerStep(s, taskCancelled)
    case PlanFails =>
      if s.planner.OwnCancel? then s.(lifetime := true, planner := Finishing)
      else if Planning(s.planner) then s.(planner := Finishing)
      else s
    case Work => WorkStep(s)
    case WorkEnds => if s.planner in {Working, Invoked} then s.(entry := Over, planner := Finishing) else s
    case Conclude(outcome) =>
      if s.planner.Finishing? && s.row.Some? && Terminal(outcome) then
        s.(row := Some(Written(s.row.value, outcome)), planner := Finished)
      else s
    case Release => if s.planner in {Finishing, Finished} then s.(planner := Released, registered := false) else s
    case NewCancel => s.(cancellers := s.cancellers + [Canceller(Reading, false, false)])
    case Cancel(i) => if i < |s.cancellers| then CancelStep(s, i) else s
    case CancelFails(i) =>
      if i < |s.cancellers| && !Ended(s.cancellers[i].stage) && !s.cancellers[i].stage.Persisted? && !s.cancellers[i].stage.Decided? then
        s.(cancellers := s.cancellers[i := s.cancellers[i].(stage := Threw)])
      else s
    case Shutdown =>
      var t := s.(sealed := true);
      if t.registered then t.(cancellers := t.cancellers + [Canceller(Reading, true, false)]) else t
  }

  function RunFrom(s: State, steps: seq<Step>): State {
    if steps == [] then s else After(RunFrom(s, steps[..|steps| - 1]), steps[|steps| - 1])
  }

  // ---------------------------------------------------------------- what every state keeps

  /** The model process runs and its signal has not been fired. */
  predicate RunsUnaborted(s: State) {
    s.planner.Invoked? && s.entry != InFlight(true)
  }

  /** Nothing can start the process any more, and if it runs its signal has been fired. */
  predicate Doomed(s: State) {
    match s.planner
    case Creating => s.sealed
    case Created => s.sealed || s.row == Some(Cancelled)
    case OwnCancel(_) => true
    case Checking => s.row == Some(Cancelled) || s.lifetime
    case Checked(cancelledSeen) => cancelledSeen || s.row == Some(Cancelled) || s.lifetime
    case Updating => s.row == Some(Cancelled) || s.lifetime
    case Updated(winner) => winner == Cancelled || s.lifetime
    case Preparing => s.lifetime
    case Selecting => s.lifetime
    case Waiting => Signalled(s)
    case Working => Signalled(s)
    case Invoked => s.entry == InFlight(true)
    case _ => true
  }

  /** The planner stands where its queue entry says, and the controller is registered in between. */
  predicate Aligned(s: State) {
    && (s.planner.Creating? <==> s.row.None?)
    && (s.registered <==> !s.planner.Creating? && !s.planner.Created? && !s.planner.Released?)
    && (match s.planner
        case Waiting => s.entry.Queueing? || s.entry.InFlight?
        case Working => s.entry.InFlight?
        case Invoked => s.entry.InFlight?
        case Finishing => s.entry.Absent? || s.entry.Over?
        case Finished => s.entry.Absent? || s.entry.Over?
        case Released => s.entry.Absent? || s.entry.Over?
        case _ => s.entry.Absent?)
  }

  predicate HasFired(s: State) {
    exists i :: 0 <= i < |s.cancellers| && s.cancellers[i].fired
  }

  /** A cancellation is persisted and its caller has not yet aborted anything. */
  predicate Unfired(s: State) {
    exists i :: 0 <= i < |s.cancellers| && s.cancellers[i].stage == Persisted(Cancelled)
  }

  ghost predicate Sound(s: State) {
    && Aligned(s) && RowBehind(s) && StartsOnce(s)
    && (s.row == Some(Cancelled) ==> Doomed(s) || Unfired(s))
    && (HasFired(s) ==> Doomed(s))
  }

  // ---------------------------------------------------------------- one step

  lemma AlignedStays(s: State, step: Step)
    requires Aligned(s)
    ensures Aligned(After(s, step))
  {
  }

  lemma DoomedStep(s: State, step: Step)
    requires Aligned(s) && Doomed(s)
    ensures Doomed(After(s, step)) && After(s, step).starts == s.starts
  {
    hide PlannerStep, WorkStep, CancelStep;
    match step {
      case Plan(taskCancelled) => DoomedPlanner(s, taskCancelled);
      case Work => DoomedWork(s);
      case Cancel(i) =>
        if i < |s.cancellers| {
          DoomedCancel(s, i);
        }
      case _ =>
    }
  }

  lemma DoomedPlanner(s: State, taskCancelled: bool)
    requires Aligned(s) && Doomed(s)
    ensures Doomed(PlannerStep(s, taskCancelled)) && PlannerStep(s, taskCancelled).starts == s.starts
  {
  }

  lemma DoomedWork(s: State)
    requires Aligned(s) && Doomed(s)
    ensures Doomed(WorkStep(s)) && WorkStep(s).starts == s.starts
  {
  }

  lemma DoomedCancel(s: State, i: nat)
    requires Aligned(s) && Doomed(s) && i < |s.cancellers|
    ensures Doomed(CancelStep(s, i)) && CancelStep(s, i).starts == s.starts
  {
  }

  /** A persisted cancellation stays persisted. */
  lemma CancelledStays(s: State, step: Step)
    requires s.row == Some(Cancelled) && !s.planner.Creating?
    ensures After(s, step).row == Some(Cancelled)
  {
    hide PlannerStep, WorkStep, CancelStep;
    match step {
      case Plan(taskCancelled) => CancelledPlanner(s, taskCancelled);
      case Work => CancelledWork(s);
      case Cancel(i) =>
        if i < |s.cancellers| {
          CancelledCancel(s, i);
        }
      case _ =>
    }
  }

  lemma CancelledPlanner(s: State, taskCancelled: bool)
    requires s.row == Some(Cancelled) && !s.planner.Creating?
    ensures PlannerStep(s, taskCancelled).row == Some(Cancelled)
  {
  }

  lemma CancelledWork(s: State)
    ensures WorkStep(s).row == s.row
  {
  }

  lemma CancelledCancel(s: State, i: nat)
    requires s.row == Some(Cancelled) && i < |s.cancellers|
    ensures CancelStep(s, i).row == Some(Cancelled)
  {
  }

  /** Firing dooms the planner: before registration because the row is already written, after it by the signals. */
  lemma FiringDooms(s: State)
    requires Aligned(s) && s.row == Some(Cancelled)
    ensures Aligned(Fired(s)) && Doomed(Fired(s))
  {
  }

  predicate StartsOnce(s: State) {
    s.starts == 0 || (s.starts == 1 && s.planner in {Invoked, Finishing, Finished, Released})
  }

  lemma StartsStep(s: State, step: Step)
    requires Aligned(s) && StartsOnce(s)
    ensures StartsOnce(After(s, step))
  {
  }

  /** A row that turns cancelled is the planner's own doing, at its end or in its own cancellation, or a canceller's. */
  lemma {:induction false} RowTurns(s: State, step: Step)
    requires Aligned(s) && s.row != Some(Cancelled) && After(s, step).row == Some(Cancelled)
    ensures Doomed(After(s, step)) || Unfired(After(s, step))
  {
    if step.Cancel? {
      var t := After(s, step);
      assert t.cancellers[step.i].stage == Persisted(Cancelled);
    }
  }

  /** What a step does to the cancellations. */
  function CancellersAfter(s: State, step: Step): seq<Canceller> {
    match step
    case NewCancel => s.cancellers + [Canceller(Reading, false, false)]
    case Cancel(i) =>
      if i >= |s.cancellers| then s.cancellers
      else
        var c := s.cancellers[i];
        if !Ended(c.stage) then s.cancellers[i := c.(stage := NextStage(c.stage, s.row).0, fired := NextStage(c.stage, s.row).1)]
        else if c.shutdown then s.cancellers[i := c.(fired := true)]
        else s.cancellers
    case CancelFails(_) => After(s, step).cancellers
    case Shutdown => if s.registered then s.cancellers + [Canceller(Reading, true, false)] else s.cancellers
    case _ => s.cancellers
  }

  lemma CancellersChange(s: State, step: Step)
    ensures After(s, step).cancellers == CancellersAfter(s, step)
  {
    hide PlannerStep, WorkStep;
    match step {
      case Plan(taskCancelled) => PlannerKeeps(s, taskCancelled);
      case Work => WorkKeeps(s);
      case _ =>
    }
  }

  lemma PlannerKeeps(s: State, taskCancelled: bool)
    ensures PlannerStep(s, taskCancelled).cancellers == s.cancellers
  {
  }

  lemma WorkKeeps(s: State)
    ensures WorkStep(s).cancellers == s.cancellers
  {
  }

  /** A cancellation that failed loses its place. */
  lemma FailureChange(s: State, i: nat)
    ensures var t := After(s, CancelFails(i));
            t == s || (i < |s.cancellers| && s.cancellers[i].stage in {Reading, Writing} &&
                       t == s.(cancellers := s.cancellers[i := s.cancellers[i].(stage := Threw)]))
  {
  }

  /** A cancellation leaves `Unfired` by firing only. */
  lemma {:induction false} UnfiredStep(s: State, step: Step)
    requires Aligned(s) && Unfired(s) && s.row == Some(Cancelled)
    ensures Unfired(After(s, step)) || Doomed(After(s, step))
  {
    var t := After(s, step);
    var i :| 0 <= i < |s.cancellers| && s.cancellers[i].stage == Persisted(Cancelled);
    if step == Cancel(i) {
      FiringDooms(s.(cancellers := s.cancellers[i := s.cancellers[i].(stage := Returned(Cancelled), fired := true)]));
    } else {
      hide After;
      CancellersChange(s, step);
      if step.CancelFails? {
        FailureChange(s, step.i);
      }
      assert t.cancellers[i].stage == Persisted(Cancelled);
    }
  }

  /** What the stages of cancellations say of the row, and who belongs to a shutdown. */
  predicate RowBehind(s: State) {
    && (forall i :: 0 <= i < |s.cancellers| && s.cancellers[i].stage in {Persisted(Cancelled), Returned(Cancelled), Decided(Cancelled)} ==>
          s.row == Some(Cancelled))
    && (forall i :: 0 <= i < |s.cancellers| && s.cancellers[i].shutdown ==> s.sealed)
  }

  lemma SealedStays(s: State, step: Step)
    ensures s.sealed || step.Shutdown? ==> After(s, step).sealed
  {
  }

  lemma StoreChange(s: State, i: nat)
    requires i < |s.cancellers| && s.cancellers[i].stage.Writing?
    ensures After(s, Cancel(i)).row == StoreAfter(Writing, s.row)
  {
  }

  lemma {:induction false} RowBehindStep(s: State, step: Step)
    requires Aligned(s) && RowBehind(s)
    ensures RowBehind(After(s, step))
  {
    hide After, Aligned;
    var t := After(s, step);
    SealedStays(s, step);
    CancellersChange(s, step);
    if s.row == Some(Cancelled) {
      AlignedRow(s);
      CancelledStays(s, step);
    } else if step.Cancel? && step.i < |s.cancellers| && s.cancellers[step.i].stage.Writing? {
      StoreChange(s, step.i);
    }
    if step.CancelFails? {
      FailureChange(s, step.i);
    }
  }

  lemma AlignedRow(s: State)
    requires Aligned(s) && s.row.Some?
    ensures !s.planner.Creating?
  {
  }

  lemma ShutdownDooms(s: State)
    requires Aligned(s) && s.sealed
    ensures Doomed(QueueCancelled(s.(lifetime := true)))
  {
  }

  /** Whoever fires, the planner is doomed from then on. */
  lemma FiredStep(s: State, step: Step)
    requires Aligned(s) && RowBehind(s) && !HasFired(s) && HasFired(After(s, step))
    ensures Doomed(After(s, step))
  {
    if step.Cancel? {
      var i := step.i;
      var c := s.cancellers[i];
      if Ended(c.stage) {
        ShutdownDooms(s.(cancellers := s.cancellers[i := c.(fired := true)]));
      } else {
        FiringDooms(s.(cancellers := s.cancellers[i := c.(stage := Returned(Cancelled), fired := true)]));
      }
    } else {
      hide After;
      CancellersChange(s, step);
      if step.CancelFails? {
        FailureChange(s, step.i);
      }
    }
  }

  lemma {:induction false} SoundStep(s: State, step: Step)
    requires Sound(s)
    ensures Sound(After(s, step))
  {
    hide After, Aligned, Doomed, RowBehind, HasFired, Unfired, StartsOnce;
    AlignedStays(s, step);
    StartsStep(s, step);
    RowBehindStep(s, step);
    if Doomed(s) {
      DoomedStep(s, step);
    } else if s.row == Some(Cancelled) {
      UnfiredStep(s, step);
    } else if After(s, step).row == Some(Cancelled) {
      RowTurns(s, step);
    }
    if HasFired(After(s, step)) && !HasFired(s) {
      FiredStep(s, step);
    }
  }

  // ---------------------------------------------------------------- every run

  lemma {:induction false} RunSound(steps: seq<Step>)
    ensures Sound(RunFrom(INITIAL, steps))
  {
    if steps != [] {
      hide Sound, After;
      RunSound(steps[..|steps| - 1]);
      SoundStep(RunFrom(INITIAL, steps[..|steps| - 1]), steps[|steps| - 1]);
    }
  }

  lemma {:induction false} DoomedForever(s: State, steps: seq<Step>)
    requires Aligned(s) && Doomed(s)
    ensures var t := RunFrom(s, steps); Aligned(t) && Doomed(t) && t.starts == s.starts && !RunsUnaborted(t)
  {
    if steps != [] {
      hide After, Aligned;
      var before := RunFrom(s, steps[..|steps| - 1]);
      DoomedForever(s, steps[..|steps| - 1]);
      AlignedStays(before, steps[|steps| - 1]);
      DoomedStep(before, steps[|steps| - 1]);
    }
  }

  /**
   Once any cancellation has fired - a call that returned the cancelled row it persisted, or the
   end of a shutdown's - no continuation starts the process, and if it runs its signal is fired.
   This covers cancellations persisted before the controller was registered.
   */
  lemma {:induction false} FiredNeverRuns(before: seq<Step>, after: seq<Step>)
    requires HasFired(RunFrom(INITIAL, before))
    ensures var s, t := RunFrom(INITIAL, before), RunFrom(RunFrom(INITIAL, before), after);
            t.starts == s.starts && !RunsUnaborted(t)
  {
    RunSound(before);
    DoomedForever(RunFrom(INITIAL, before), after);
  }

  /** An invocation not registered when the service is sealed is never started. */
  lemma {:induction false} SealedNeverRuns(before: seq<Step>, after: seq<Step>)
    requires RunFrom(INITIAL, before).sealed && !RunFrom(INITIAL, before).registered
    ensures var s, t := RunFrom(INITIAL, before), RunFrom(RunFrom(INITIAL, before), after);
            t.starts == s.starts && !RunsUnaborted(t)
  {
    RunSound(before);
    DoomedForever(RunFrom(INITIAL, before), after);
  }

  /** The checks before the queue let the planner on exactly if neither its row nor its task is cancelled and no signal is fired. */
  lemma ChecksExact(s: State, taskCancelled: bool, later: bool)
    requires s.planner.Checking?
    ensures After(After(s, Plan(taskCancelled)), Plan(later)).planner ==
            if taskCancelled || s.row == Some(Cancelled) || s.lifetime then Finishing else Updating
  {
  }

  /** A planner that finds its task cancelled never starts the process, whatever happens. */
  lemma {:induction false} TaskCancelledNeverRuns(before: seq<Step>, after: seq<Step>)
    requires RunFrom(INITIAL, before).planner.Checking?
    ensures var s := RunFrom(INITIAL, before);
            var t := RunFrom(After(s, Plan(true)), after);
            t.starts == s.starts && !RunsUnaborted(t)
  {
    RunSound(before);
    var s := RunFrom(INITIAL, before);
    AlignedStays(s, Plan(true));
    DoomedForever(After(s, Plan(true)), after);
  }

  /** The same cancellation at another stage. */
  function AtStage(s: State, i: nat, stage: Stage, fired: bool): State
    requires i < |s.cancellers|
  {
    s.(cancellers := s.cancellers[i := Canceller(stage, s.cancellers[i].shutdown, fired)])
  }

  lemma StageSteps(s: State, i: nat, row: Status)
    requires i < |s.cancellers| && s.row == Some(row)
    ensures s.cancellers[i].stage == Reading ==> After(s, Cancel(i)) == AtStage(s, i, Decided(row), false)
    ensures s.cancellers[i].stage == Decided(row) ==>
              After(s, Cancel(i)) == AtStage(s, i, if Terminal(row) then Returned(row) else Writing, false)
    ensures s.cancellers[i].stage == Writing && !Terminal(row) ==>
              After(s, Cancel(i)) == AtStage(s.(row := Some(Cancelled)), i, Persisted(Cancelled), false)
  {
  }

  lemma FiringStep(s: State, i: nat)
    requires i < |s.cancellers| && s.cancellers[i].stage == Persisted(Cancelled)
    ensures var t := After(s, Cancel(i));
            && t.row == s.row && t.cancellers == AtStage(s, i, Returned(Cancelled), true).cancellers
            && t.lifetime == (s.lifetime || s.registered)
            && t.entry == (if s.entry.Queueing? then Over else if s.entry.InFlight? then InFlight(true) else s.entry)
            && t.planner == (if s.entry.Queueing? then Finishing else s.planner)
  {
  }

  lemma SameCanceller(s: State, i: nat, a: Stage, b: Stage, fired: bool)
    requires i < |s.cancellers|
    ensures AtStage(AtStage(s, i, a, false), i, b, fired) == AtStage(s, i, b, fired)
  {
    var c, d := Canceller(a, s.cancellers[i].shutdown, false), Canceller(b, s.cancellers[i].shutdown, fired);
    assert s.cancellers[i := c][i := d] == s.cancellers[i := d];
  }

  /**
   A cancellation that is left alone: one that finds the row finished returns it and changes nothing
   else; any other one writes the row and aborts whatever is registered and queued or in flight.
   */
  lemma CancellationAlone(s: State, i: nat, row: Status)
    requires i < |s.cancellers| && s.cancellers[i].stage == Reading && s.row == Some(row)
    ensures var two := After(After(s, Cancel(i)), Cancel(i));
            var four := After(After(two, Cancel(i)), Cancel(i));
            if row == Queued || row == Running then
              && four.row == Some(Cancelled) && four.cancellers == AtStage(s, i, Returned(Cancelled), true).cancellers
              && four.lifetime == (s.lifetime || s.registered)
              && four.entry == (if s.entry.Queueing? then Over else if s.entry.InFlight? then InFlight(true) else s.entry)
              && four.planner == (if s.entry.Queueing? then Finishing else s.planner)
            else two == AtStage(s, i, Returned(row), false)
  {
    hide After;
    var one := AtStage(s, i, Decided(row), false);
    StageSteps(s, i, row);
    StageSteps(one, i, row);
    if row == Queued || row == Running {
      var two := AtStage(s, i, Writing, false);
      SameCanceller(s, i, Decided(row), Writing, false);
      StageSteps(two, i, row);
      var cancelled := s.(row := Some(Cancelled));
      var three := AtStage(cancelled, i, Persisted(Cancelled), false);
      SameCanceller(cancelled, i, Writing, Persisted(Cancelled), false);
      FiringStep(three, i);
      SameCanceller(cancelled, i, Persisted(Cancelled), Returned(Cancelled), true);
    } else {
      SameCanceller(s, i, Decided(row), Returned(row), false);
    }
  }

  /** A planner that is done records its outcome, unless the row was cancelled meanwhile or it is too late to cancel it. */
  lemma ConclusionRecorded(s: State, outcome: Status)
    requires s.planner.Finishing? && s.row.Some? && Terminal(outcome)
    ensures var t := After(s, Conclude(outcome));
            && t.planner == Finished
            && (s.row == Some(Cancelled) ==> t.row == Some(Cancelled))
            && (s.row.value in {Queued, Running} ==> t.row == Some(outcome))
            && Terminal(t.row.value)
            && t.starts == s.starts && t.lifetime == s.lifetime && t.entry == s.entry && t.cancellers == s.cancellers
  {
  }

  /** Several steps of the planner, its task not being cancelled. */
  function Planned(s: State, steps: nat): State
    decreases steps
  {
    if steps == 0 then s else Planned(After(s, Plan(false)), steps - 1)
  }

  /**
   A planner that finds the service sealed, left alone, cancels its own invocation, aborts its signal
   and fails at its checks; a row that is finished already stays.
   */
  lemma SealedCancelsItself(s: State)
    requires s.planner.Created? && s.sealed && s.row.Some? && s.entry.Absent?
    ensures Planned(s, 8) ==
            s.(registered := true, lifetime := true, planner := Finishing,
               row := Some(if s.row.value == Queued || s.row.value == Running then Cancelled else s.row.value))
  {
    var row, mine := s.row.value, s.(registered := true);
    OnePlan(s, 8, mine.(planner := OwnCancel(Reading)));
    OnePlan(mine.(planner := OwnCancel(Reading)), 7, mine.(planner := OwnCancel(Decided(row))));
    if row == Queued || row == Running {
      var cancelled := mine.(row := Some(Cancelled));
      OnePlan(mine.(planner := OwnCancel(Decided(row))), 6, mine.(planner := OwnCancel(Writing)));
      OnePlan(mine.(planner := OwnCancel(Writing)), 5, cancelled.(planner := OwnCancel(Persisted(Cancelled))));
      var fired := cancelled.(lifetime := true, planner := OwnCancel(Returned(Cancelled)));
      OnePlan(cancelled.(planner := OwnCancel(Persisted(Cancelled))), 4, fired);
      CheckedOut(fired, 3);
    } else {
      OnePlan(mine.(planner := OwnCancel(Decided(row))), 6, mine.(planner := OwnCancel(Returned(row))));
      CheckedOut(mine.(planner := OwnCancel(Returned(row))), 5);
    }
  }

  lemma OnePlan(s: State, steps: nat, next: State)
    requires steps > 0 && After(s, Plan(false)) == next
    ensures Planned(s, steps) == Planned(next, steps - 1)
  {
  }

  /** After its own cancellation the planner aborts its signal and stops at the checks. */
  lemma CheckedOut(s: State, steps: nat)
    requires s.planner.OwnCancel? && s.planner.stage.Returned? && steps >= 3
    ensures Planned(s, steps) == s.(lifetime := true, planner := Finishing)
  {
    var seen := s.row == Some(Cancelled);
    OnePlan(s, steps, s.(lifetime := true, planner := Checking));
    OnePlan(s.(lifetime := true, planner := Checking), steps - 1, s.(lifetime := true, planner := Checked(seen)));
    OnePlan(s.(lifetime := true, planner := Checked(seen)), steps - 2, s.(lifetime := true, planner := Finishing));
    Idle(s.(lifetime := true, planner := Finishing), steps - 3);
  }

  lemma Idle(s: State, steps: nat)
    requires s.planner == Finishing
    ensures Planned(s, steps) == s
    decreases steps
  {
  }

  /** In no run is the process of one invocation started twice. */
  lemma {:induction false} StartsAtMostOnce(steps: seq<Step>)
    ensures RunFrom(INITIAL, steps).starts <= 1
  {
    RunSound(steps);
  }

  /** A cancellation that finds the invocation finished aborts nothing. */
  lemma {:induction false} FinishedNotAborted(before: seq<Step>, i: nat)
    requires var s := RunFrom(INITIAL, before);
             s.row in {Some(Succeeded), Some(Failed)} && i < |s.cancellers| && !s.cancellers[i].shutdown
    ensures var s := RunFrom(INITIAL, before);
            var t := After(s, Cancel(i));
            t.lifetime == s.lifetime && t.entry == s.entry && t.row == s.row
  {
    RunSound(before);
    hide RunFrom, Aligned, Doomed;
  }

  // ---------------------------------------------------------------- returning early

  /**
   The planner has passed its checks of the row, neither of its signals is fired, and it has not
   yet let go: what a cancellation that returns early, on a row already cancelled, relies on not
   being the case.
   */
  predicate PastChecks(s: State) {
    match s.planner
    case Updated(winner) => winner != Cancelled && !s.lifetime
    case Preparing => !s.lifetime
    case Selecting => !s.lifetime
    case Waiting => !Signalled(s)
    case Working => !Signalled(s)
    case Invoked => s.entry != InFlight(true)
    case _ => false
  }

  function Distance(s: State): nat {
    match s.planner
    case Updated(_) => 6
    case Preparing => 5
    case Selecting => 4
    case Waiting => if s.entry.Queueing? then 3 else 2
    case Working => 1
    case _ => 0
  }

  /** Past its checks, the planner left to itself starts the process. */
  lemma {:induction false} LeftToItself(s: State) returns (steps: seq<Step>)
    requires Aligned(s) && PastChecks(s)
    ensures RunsUnaborted(RunFrom(s, steps))
    decreases Distance(s)
  {
    if s.planner.Invoked? {
      steps := [];
    } else {
      var step := if s.planner in {Waiting, Working} then Work else Plan(false);
      AlignedStays(s, step);
      var rest := LeftToItself(After(s, step));
      steps := [step] + rest;
      RunSplits(s, [step], rest);
      assert [step][..0] == [];
    }
  }

  lemma {:induction false} RunSplits(s: State, first: seq<Step>, rest: seq<Step>)
    ensures RunFrom(s, first + rest) == RunFrom(RunFrom(s, first), rest)
    decreases |rest|
  {
    if rest == [] {
      assert first + rest == first;
    } else {
      hide After;
      var n := |rest| - 1;
      assert (first + rest)[..|first + rest| - 1] == first + rest[..n];
      RunSplits(s, first, rest[..n]);
    }
  }

  /**
   When a call returns a cancelled row, whoever persisted it, the process can still start or run
   unaborted exactly if the planner is past its checks with neither signal fired; and then the
   cancellation that persisted the row has not fired yet.
   */
  lemma {:induction false} ReturnedCancelledExact(before: seq<Step>)
    requires RunFrom(INITIAL, before).row == Some(Cancelled)
    ensures var s := RunFrom(INITIAL, before);
            (exists after :: RunsUnaborted(RunFrom(s, after))) <==> PastChecks(s)
    ensures PastChecks(RunFrom(INITIAL, before)) ==> Unfired(RunFrom(INITIAL, before))
  {
    var s := RunFrom(INITIAL, before);
    RunSound(before);
    CancelledPastChecks(s);
    hide Doomed, PastChecks, Aligned, RunsUnaborted, RunFrom;
    if PastChecks(s) {
      assert Unfired(s);
      var after := LeftToItself(s);
      assert RunsUnaborted(RunFrom(s, after));
    } else {
      forall after ensures !RunsUnaborted(RunFrom(s, after)) {
        DoomedForever(s, after);
      }
    }
  }

  lemma CancelledPastChecks(s: State)
    requires Aligned(s) && s.row == Some(Cancelled)
    ensures Doomed(s) <==> !PastChecks(s)
  {
  }

  lemma OneMore(s: State, steps: seq<Step>, step: Step)
    ensures RunFrom(s, steps + [step]) == After(RunFrom(s, steps), step)
  {
    assert (steps + [step])[..|steps|] == steps;
  }

  /** Five steps take the planner past its checks. */
  lemma UpToChecks() returns (steps: seq<Step>)
    ensures RunFrom(INITIAL, steps) == State(Updated(Running), Some(Running), true, false, Absent, [], false, 0)
  {
    steps := [];
    ghost var s := INITIAL;
    for i := 0 to 5
      invariant RunFrom(INITIAL, steps) == s
      invariant s.cancellers == [] && !s.sealed && !s.lifetime && s.entry == Absent && s.starts == 0 && s.registered == (i >= 2)
      invariant i == 0 ==> s == INITIAL
      invariant s.planner == if i == 0 then Creating else if i == 1 then Created else if i == 2 then Checking
                             else if i == 3 then Checked(false) else if i == 4 then Updating else Updated(Running)
      invariant 1 <= i <= 4 ==> s.row == Some(Queued)
      invariant i == 5 ==> s.row == Some(Running)
    {
      OneMore(INITIAL, steps, Plan(false));
      steps, s := steps + [Plan(false)], After(s, Plan(false));
    }
  }

  /** A planner past its checks, with two callers about to cancel. */
  function Contested(row: Status, first: Stage, second: Stage): State {
    State(Updated(Running), Some(row), true, false, Absent, [Canceller(first, false, false), Canceller(second, false, false)], false, 0)
  }

  lemma TwoCallers() returns (steps: seq<Step>)
    ensures RunFrom(INITIAL, steps) == Contested(Running, Reading, Reading)
  {
    steps := UpToChecks();
    hide RunFrom;
    ghost var s := RunFrom(INITIAL, steps);
    OneMore(INITIAL, steps, NewCancel);
    steps, s := steps + [NewCancel], After(s, NewCancel);
    OneMore(INITIAL, steps, NewCancel);
    steps := steps + [NewCancel];
  }

  /** The steps of one caller up to writing, then up to having written. */
  lemma FirstCallerStep(first: Stage)
    requires first in {Reading, Decided(Running), Writing}
    ensures After(Contested(Running, first, Reading), Cancel(0)) ==
            if first == Reading then Contested(Running, Decided(Running), Reading)
            else if first == Decided(Running) then Contested(Running, Writing, Reading)
            else Contested(Cancelled, Persisted(Cancelled), Reading)
  {
  }

  lemma SecondCallerStep(second: Stage)
    requires second in {Reading, Decided(Cancelled)}
    ensures After(Contested(Cancelled, Persisted(Cancelled), second), Cancel(1)) ==
            Contested(Cancelled, Persisted(Cancelled), if second == Reading then Decided(Cancelled) else Returned(Cancelled))
  {
  }

  /**
   The case is real: two callers cancel a planner past its checks, and the second, finding the
   row the first persisted, returns while the process can still be started.
   */
  lemma {:induction false} EarlyReturnCanStart() returns (before: seq<Step>)
    ensures var s := RunFrom(INITIAL, before);
            && |s.cancellers| == 2 && s.cancellers[1].stage == Returned(Cancelled) && s.starts == 0
            && exists after :: RunsUnaborted(RunFrom(s, after))
  {
    before := TwoCallers();
    hide RunFrom, After;
    FirstCallerStep(Reading);
    FirstCallerStep(Decided(Running));
    FirstCallerStep(Writing);
    SecondCallerStep(Reading);
    SecondCallerStep(Decided(Cancelled));
    OneMore(INITIAL, before, Cancel(0));
    before := before + [Cancel(0)];
    OneMore(INITIAL, before, Cancel(0));
    before := before + [Cancel(0)];
    OneMore(INITIAL, before, Cancel(0));
    before := before + [Cancel(0)];
    OneMore(INITIAL, before, Cancel(1));
    before := before + [Cancel(1)];
    OneMore(INITIAL, before, Cancel(1));
    before := before + [Cancel(1)];
    ReturnedCancelledExact(before);
  }
}
