/** The error collector: tasks run under a weighted semaphore and send their errors through a bounded
    channel to one collecting goroutine; `Wait` closes the channel once every task has gone.  Each
    goroutine's next visible action is one step, in any interleaving. */
module ErrorCollector {
  import opened Wrappers

  const CAPACITY := 10

  type Error = nat

  /** A task's goroutine: it waits for a permit, runs its function, sends the error it got, gives the
      permit back and leaves the wait group.  An error from the semaphore is sent without a permit. */
  datatype Phase = Queued | Running | Sending(error: Error, permit: bool) | Releasing | Exiting | Gone

  /** `runs` counts the calls of the task's function, `refused` says that the semaphore failed instead, and
      `produced` is the error that resulted. */
  datatype Task = Task(phase: Phase, runs: nat, refused: bool, produced: Option<Error>)

  /** The caller: submitting, inside `Wait`, past the wait group, past `close`, and back. */
  datatype Caller = Submitting | Waiting | Drained | Closed | Returned

  datatype State = State(
    tasks: seq<Task>,
    max: nat, inUse: nat,
    buffer: seq<Error>, closed: bool, panicked: bool,
    errs: seq<Error>, done: bool,
    caller: Caller)

  datatype Label =
    | Go
    | Acquire(t: nat)
    | AcquireFails(t: nat, error: Error)
    | Finish(t: nat, result: Option<Error>)
    | Send(t: nat)
    | ReleasePermit(t: nat)
    | Exit(t: nat)
    | Collect
    | CollectorExits
    | StartWait
    | WaitGroupEmpty
    | CloseInput
    | Return

  predicate AllGone(ts: seq<Task>) {
    forall t :: 0 <= t < |ts| ==> ts[t].phase.Gone?
  }

  predicate InPhase(s: State, t: nat, phase: Phase) {
    t < |s.tasks| && s.tasks[t].phase == phase
  }

  /** New tasks may be submitted before `Wait`, and during it while the wait group is not empty. */
  predicate Enabled(s: State, l: Label) {
    match l
    case Go => s.caller == Submitting || (s.caller == Waiting && !AllGone(s.tasks))
    case Acquire(t) => InPhase(s, t, Queued) && s.inUse < s.max
    case AcquireFails(t, _) => InPhase(s, t, Queued)
    case Finish(t, _) => InPhase(s, t, Running)
    case Send(t) => t < |s.tasks| && s.tasks[t].phase.Sending? && (s.closed || |s.buffer| < CAPACITY)
    case ReleasePermit(t) => InPhase(s, t, Releasing)
    case Exit(t) => InPhase(s, t, Exiting)
    case Collect => s.buffer != [] && !s.done
    case CollectorExits => s.buffer == [] && s.closed && !s.done
    case StartWait => s.caller == Submitting
    case WaitGroupEmpty => s.caller == Waiting && AllGone(s.tasks)
    case CloseInput => s.caller == Drained
    case Return => s.caller == Closed && s.done
  }

  function Put(s: State, t: nat, task: Task): State
    requires t < |s.tasks|
  {
    s.(tasks := s.tasks[t := task])
  }

  function Move(s: State, t: nat, phase: Phase): State
    requires t < |s.tasks|
  {
    Put(s, t, s.tasks[t].(phase := phase))
  }

  function Next(s: State, l: Label): State
    requires Enabled(s, l)
  {
    match l
    case Go => s.(tasks := s.tasks + [Task(Queued, 0, false, None)])
    case Acquire(t) => Move(s, t, Running).(inUse := s.inUse + 1)
    case AcquireFails(t, error) => Put(s, t, Task(Sending(error, false), s.tasks[t].runs, true, Some(error)))
    case Finish(t, result) =>
      Put(s, t, Task(if result.Some? then Sending(result.value, true) else Releasing, s.tasks[t].runs + 1, s.tasks[t].refused, result))
    case Send(t) =>
      if s.closed then s.(panicked := true)
      else Move(s, t, if s.tasks[t].phase.permit then Releasing else Exiting).(buffer := s.buffer + [s.tasks[t].phase.error])
    case ReleasePermit(t) => Move(s, t, Exiting).(inUse := if s.inUse == 0 then 0 else s.inUse - 1)
    case Exit(t) => Move(s, t, Gone)
    case Collect => s.(buffer := s.buffer[1..], errs := s.errs + [s.buffer[0]])
    case CollectorExits => s.(done := true)
    case StartWait => s.(caller := Waiting)
    case WaitGroupEmpty => s.(caller := Drained)
    case CloseInput => s.(closed := true, caller := Closed)
    case Return => s.(caller := Returned)
  }

  predicate Initial(s: State) {
    s == State([], s.max, 0, [], false, false, [], false, Submitting)
  }

  ghost predicate IsRun(states: seq<State>, labels: seq<Label>) {
    && |states| == |labels| + 1 && Initial(states[0])
    && forall i :: 0 <= i < |labels| ==> Enabled(states[i], labels[i]) && states[i + 1] == Next(states[i], labels[i])
  }

  /** What `Wait` hands back: nothing, the one error, or all of them joined. */
  datatype Answer = Nil | One(error: Error) | Joined(errors: seq<Error>)

  function WaitAnswer(s: State): Answer {
    if |s.errs| == 0 then Nil else if |s.errs| == 1 then One(s.errs[0]) else Joined(s.errs)
  }

  function Errors(a: Answer): seq<Error> {
    match a case Nil => [] case One(error) => [error] case Joined(errors) => errors
  }

  // ---------------------------------------------------------------- sums over tasks

  predicate HoldsPermit(task: Task) {
    task.phase.Running? || task.phase.Releasing? || (task.phase.Sending? && task.phase.permit)
  }

  function Holders(ts: seq<Task>): nat {
    if ts == [] then 0 else Holders(ts[..|ts| - 1]) + if HoldsPermit(ts[|ts| - 1]) then 1 else 0
  }

  function RunningCount(ts: seq<Task>): nat {
    if ts == [] then 0 else RunningCount(ts[..|ts| - 1]) + if ts[|ts| - 1].phase.Running? then 1 else 0
  }

  /** The error a task produced. */
  function Output(task: Task): multiset<Error> {
    if task.produced.Some? then multiset{task.produced.value} else multiset{}
  }

  /** The error a task has sent; while it is still sending, none. */
  function Delivered(task: Task): multiset<Error> {
    if task.phase.Sending? then multiset{} else Output(task)
  }

  /** Everything the tasks contribute. */
  function All(ts: seq<Task>, f: Task -> multiset<Error>): multiset<Error> {
    if ts == [] then multiset{} else All(ts[..|ts| - 1], f) + f(ts[|ts| - 1])
  }

  lemma {:induction false} HoldersUpdate(ts: seq<Task>, t: nat, task: Task)
    requires t < |ts|
    ensures Holders(ts[t := task]) + (if HoldsPermit(ts[t]) then 1 else 0) == Holders(ts) + (if HoldsPermit(task) then 1 else 0)
  {
    var n := |ts| - 1;
    if t < n {
      assert ts[t := task][..n] == ts[..n][t := task];
      HoldersUpdate(ts[..n], t, task);
    } else {
      assert ts[t := task][..n] == ts[..n];
    }
  }

  lemma {:induction false} AllGrows(ts: seq<Task>, t: nat, task: Task, f: Task -> multiset<Error>, more: multiset<Error>)
    requires t < |ts| && f(task) == f(ts[t]) + more
    ensures All(ts[t := task], f) == All(ts, f) + more
  {
    var n := |ts| - 1;
    if t < n {
      assert ts[t := task][..n] == ts[..n][t := task];
      AllGrows(ts[..n], t, task, f, more);
      Regroup(All(ts[..n], f), f(ts[n]), more);
    } else {
      assert ts[t := task][..n] == ts[..n];
      Regroup(All(ts[..n], f), f(ts[n]), more);
    }
  }

  lemma {:induction false} Regroup(x: multiset<Error>, y: multiset<Error>, z: multiset<Error>)
    ensures (x + z) + y == (x + y) + z == x + (y + z)
  {
  }

  lemma {:induction false} AllSame(a: seq<Task>, b: seq<Task>, f: Task -> multiset<Error>, g: Task -> multiset<Error>)
    requires |a| == |b| && forall i :: 0 <= i < |a| ==> f(a[i]) == g(b[i])
    ensures All(a, f) == All(b, g)
  {
    if a == [] {
    } else {
      AllSame(a[..|a| - 1], b[..|b| - 1], f, g);
    }
  }

  lemma {:induction false} AppendQueued(ts: seq<Task>, task: Task)
    requires !HoldsPermit(task) && task.produced.None?
    ensures Holders(ts + [task]) == Holders(ts)
    ensures All(ts + [task], Delivered) == All(ts, Delivered) && All(ts + [task], Output) == All(ts, Output)
  {
    assert (ts + [task])[..|ts|] == ts;
  }

  lemma {:induction false} HolderCounts(ts: seq<Task>, t: nat)
    requires t < |ts| && HoldsPermit(ts[t])
    ensures 0 < Holders(ts)
  {
    if t < |ts| - 1 { HolderCounts(ts[..|ts| - 1], t); }
  }

  lemma {:induction false} RunningAtMostHolders(ts: seq<Task>)
    ensures RunningCount(ts) <= Holders(ts)
  {
    if ts == [] {
    } else {
      RunningAtMostHolders(ts[..|ts| - 1]);
    }
  }

  lemma {:induction false} NobodyHolds(ts: seq<Task>)
    requires forall t :: 0 <= t < |ts| ==> !HoldsPermit(ts[t])
    ensures Holders(ts) == 0
  {
    if ts == [] {
    } else {
      NobodyHolds(ts[..|ts| - 1]);
    }
  }

  // ---------------------------------------------------------------- the invariant

  /** A task's function runs once and the semaphore never refuses it, or it is refused and never runs. */
  predicate TaskOk(task: Task) {
    match task.phase
    case Queued => task.runs == 0 && !task.refused && task.produced.None?
    case Running => task.runs == 0 && !task.refused && task.produced.None?
    case Sending(error, permit) => task.produced == Some(error) && task.refused != permit && task.runs == if permit then 1 else 0
    case Releasing => task.runs == 1 && !task.refused
    case _ => if task.refused then task.runs == 0 && task.produced.Some? else task.runs == 1
  }

  predicate CallerOk(s: State) {
    && (s.caller in {Drained, Closed, Returned} ==> AllGone(s.tasks))
    && (s.closed <==> s.caller in {Closed, Returned})
    && (s.done ==> s.closed && s.buffer == [])
    && (s.caller == Returned ==> s.done)
    && !s.panicked
  }

  predicate TasksOk(s: State) {
    forall t :: 0 <= t < |s.tasks| ==> TaskOk(s.tasks[t])
  }

  predicate PermitsCounted(s: State) {
    s.inUse == Holders(s.tasks) <= s.max
  }

  /** No error is lost or duplicated on the way from the tasks to the collector. */
  predicate Balanced(s: State) {
    multiset(s.errs) + multiset(s.buffer) == All(s.tasks, Delivered)
  }

  ghost predicate Inv(s: State) {
    CallerOk(s) && TasksOk(s) && PermitsCounted(s) && Balanced(s)
  }

  predicate IsTaskStep(l: Label) {
    l.Acquire? || l.AcquireFails? || l.Finish? || l.Send? || l.ReleasePermit? || l.Exit?
  }

  /** A task's own step changes its entry only, and keeps what is known of it and of the permits. */
  lemma {:induction false} TaskStep(s: State, l: Label)
    requires Enabled(s, l) && IsTaskStep(l) && CallerOk(s) && TaskOk(s.tasks[l.t])
    requires HoldsPermit(s.tasks[l.t]) ==> 0 < s.inUse
    ensures !s.closed && var s' := Next(s, l); var task := s.tasks[l.t]; var task' := s'.tasks[l.t];
            && s' == s.(tasks := s.tasks[l.t := task'], inUse := s'.inUse, buffer := s'.buffer)
            && TaskOk(task') && !task.phase.Gone? && CallerOk(s')
            && s'.inUse + (if HoldsPermit(task) then 1 else 0) == s.inUse + (if HoldsPermit(task') then 1 else 0)
            && (s.inUse < s'.inUse ==> s.inUse < s.max)
  {
  }

  lemma {:induction false} TaskStepCounts(s: State, l: Label)
    requires Enabled(s, l) && IsTaskStep(l) && CallerOk(s) && TasksOk(s) && PermitsCounted(s)
    ensures CallerOk(Next(s, l)) && TasksOk(Next(s, l)) && PermitsCounted(Next(s, l))
  {
    assert TaskOk(s.tasks[l.t]);
    if HoldsPermit(s.tasks[l.t]) { HolderCounts(s.tasks, l.t); }
    TaskStep(s, l);
    HoldersUpdate(s.tasks, l.t, Next(s, l).tasks[l.t]);
  }

  lemma {:induction false} SendBalances(s: State, t: nat)
    requires Enabled(s, Send(t)) && !s.closed && TaskOk(s.tasks[t]) && Balanced(s)
    ensures Balanced(Next(s, Send(t)))
  {
    var s' := Next(s, Send(t));
    assert s'.tasks == s.tasks[t := s'.tasks[t]];
    var e := multiset{s.tasks[t].phase.error};
    AllGrows(s.tasks, t, s'.tasks[t], Delivered, e);
    assert Delivered(s'.tasks[t]) == e;
    assert multiset(s'.buffer) == multiset(s.buffer) + e;
  }

  lemma {:induction false} OtherStepDelivers(s: State, l: Label) returns (task: Task)
    requires Enabled(s, l) && IsTaskStep(l) && !l.Send? && TaskOk(s.tasks[l.t])
    ensures Next(s, l) == s.(tasks := s.tasks[l.t := task], inUse := Next(s, l).inUse)
    ensures Delivered(s.tasks[l.t]) == Delivered(task)
  {
    task := Next(s, l).tasks[l.t];
  }

  lemma {:induction false} SilentStepBalances(s: State, t: nat, task: Task, inUse: nat)
    requires t < |s.tasks| && Delivered(s.tasks[t]) == Delivered(task) && Balanced(s)
    ensures Balanced(s.(tasks := s.tasks[t := task], inUse := inUse))
  {
    AllGrows(s.tasks, t, task, Delivered, multiset{});
  }

  lemma {:induction false} CollectBalances(s: State)
    requires Enabled(s, Collect) && Balanced(s)
    ensures Balanced(Next(s, Collect))
  {
    assert s.buffer == [s.buffer[0]] + s.buffer[1..];
    assert multiset(Next(s, Collect).errs) == multiset(s.errs) + multiset{s.buffer[0]};
  }

  lemma {:induction false} GoKeepsInv(s: State)
    requires Inv(s) && Enabled(s, Go)
    ensures Inv(Next(s, Go))
  {
    AppendQueued(s.tasks, Task(Queued, 0, false, None));
  }

  lemma {:induction false} StepKeepsInv(s: State, l: Label)
    requires Inv(s) && Enabled(s, l)
    ensures Inv(Next(s, l))
  {
    if l.Go? {
      GoKeepsInv(s);
    } else if l.Collect? {
      CollectBalances(s);
    } else if IsTaskStep(l) {
      TaskStepCounts(s, l);
      if l.Send? {
        SendBalances(s, l.t);
      } else {
        var task := OtherStepDelivers(s, l);
        SilentStepBalances(s, l.t, task, Next(s, l).inUse);
      }
    }
  }

  lemma {:induction false} RunKeepsInv(states: seq<State>, labels: seq<Label>, k: nat)
    requires IsRun(states, labels) && k <= |labels|
    ensures Inv(states[k])
  {
    if k == 0 {
    } else {
      RunKeepsInv(states, labels, k - 1);
      StepKeepsInv(states[k - 1], labels[k - 1]);
    }
  }

  // ---------------------------------------------------------------- what the run itself says

  /** The error a step reports: a task function's or the semaphore's. */
  function ErrorOf(l: Label): multiset<Error> {
    match l
    case Finish(_, result) => if result.Some? then multiset{result.value} else multiset{}
    case AcquireFails(_, error) => multiset{error}
    case _ => multiset{}
  }

  function Reported(labels: seq<Label>): multiset<Error> {
    if labels == [] then multiset{} else Reported(labels[..|labels| - 1]) + ErrorOf(labels[|labels| - 1])
  }

  /** How many tasks were submitted. */
  function Submitted(labels: seq<Label>): nat {
    if labels == [] then 0 else Submitted(labels[..|labels| - 1]) + if labels[|labels| - 1].Go? then 1 else 0
  }

  predicate Finishes(l: Label, t: nat) { l.Finish? && l.t == t }

  predicate Refuses(l: Label, t: nat) { l.AcquireFails? && l.t == t }

  /** How often the function of task `t` returned. */
  function Finished(labels: seq<Label>, t: nat): nat {
    if labels == [] then 0 else Finished(labels[..|labels| - 1], t) + if Finishes(labels[|labels| - 1], t) then 1 else 0
  }

  /** How often task `t` was refused a permit. */
  function Refused(labels: seq<Label>, t: nat): nat {
    if labels == [] then 0 else Refused(labels[..|labels| - 1], t) + if Refuses(labels[|labels| - 1], t) then 1 else 0
  }

  predicate Reports(l: Label) { l.Finish? || l.AcquireFails? }

  lemma {:induction false} TaskProduces(s: State, l: Label)
    requires Enabled(s, l) && IsTaskStep(l) && TaskOk(s.tasks[l.t])
    ensures Next(s, l).tasks == s.tasks[l.t := Next(s, l).tasks[l.t]]
    ensures Reports(l) ==> s.tasks[l.t].produced.None?
    ensures Next(s, l).tasks[l.t].produced ==
              if l.Finish? then l.result else if l.AcquireFails? then Some(l.error) else s.tasks[l.t].produced
  {
  }

  lemma {:induction false} TaskReports(task: Task, l: Label, task': Task)
    requires Reports(l) ==> task.produced.None?
    requires task'.produced == if l.Finish? then l.result else if l.AcquireFails? then Some(l.error) else task.produced
    ensures Output(task') == Output(task) + ErrorOf(l)
  {
  }

  lemma {:induction false} StepReports(s: State, l: Label)
    requires TasksOk(s) && Enabled(s, l)
    ensures All(Next(s, l).tasks, Output) == All(s.tasks, Output) + ErrorOf(l)
  {
    if l.Go? {
      AppendQueued(s.tasks, Task(Queued, 0, false, None));
    } else if IsTaskStep(l) {
      TaskProduces(s, l);
      TaskReports(s.tasks[l.t], l, Next(s, l).tasks[l.t]);
      AllGrows(s.tasks, l.t, Next(s, l).tasks[l.t], Output, ErrorOf(l));
    } else {
      assert Next(s, l).tasks == s.tasks;
    }
  }

  predicate TaskRecord(s: State, labels: seq<Label>, t: nat) {
    && Finished(labels, t) == (if t < |s.tasks| then s.tasks[t].runs else 0)
    && Refused(labels, t) == (if t < |s.tasks| && s.tasks[t].refused then 1 else 0)
  }

  /** The tasks' records are those of the run. */
  predicate ErrorsRecorded(s: State, labels: seq<Label>) { All(s.tasks, Output) == Reported(labels) }

  ghost predicate TasksRecorded(s: State, labels: seq<Label>) {
    |s.tasks| == Submitted(labels) && forall t: nat :: TaskRecord(s, labels, t)
  }

  lemma {:induction false} TaskRecorded(s: State, labels: seq<Label>, l: Label, t: nat)
    requires TasksOk(s) && Enabled(s, l) && TaskRecord(s, labels, t)
    ensures TaskRecord(Next(s, l), labels + [l], t)
  {
    assert (labels + [l])[..|labels|] == labels;
    if IsTaskStep(l) { assert TaskOk(s.tasks[l.t]); }
  }

  lemma {:induction false} ErrorsStayRecorded(s: State, labels: seq<Label>, l: Label, s': State, labels': seq<Label>)
    requires TasksOk(s) && Enabled(s, l) && ErrorsRecorded(s, labels) && s' == Next(s, l) && labels' == labels + [l]
    ensures ErrorsRecorded(s', labels')
  {
    assert labels'[..|labels|] == labels;
    StepReports(s, l);
  }

  lemma {:induction false} TasksStayRecorded(s: State, labels: seq<Label>, l: Label)
    requires TasksOk(s) && Enabled(s, l) && TasksRecorded(s, labels)
    ensures TasksRecorded(Next(s, l), labels + [l])
  {
    assert (labels + [l])[..|labels|] == labels;
    forall t: nat ensures TaskRecord(Next(s, l), labels + [l], t) {
      TaskRecorded(s, labels, l, t);
    }
  }

  lemma {:induction false} RunKeepsTasks(states: seq<State>, labels: seq<Label>, k: nat)
    requires IsRun(states, labels) && k <= |labels|
    ensures TasksOk(states[k])
  {
    RunKeepsInv(states, labels, k);
  }

  lemma {:induction false} NothingReported(s: State, labels: seq<Label>)
    requires s.tasks == [] && labels == []
    ensures ErrorsRecorded(s, labels)
  {
  }

  lemma {:induction false} RunRecordsErrors(states: seq<State>, labels: seq<Label>, k: nat)
    requires IsRun(states, labels) && k <= |labels|
    ensures ErrorsRecorded(states[k], labels[..k])
  {
    if k == 0 {
      NothingReported(states[0], labels[..0]);
    } else {
      RunRecordsErrors(states, labels, k - 1);
      RunKeepsTasks(states, labels, k - 1);
      ErrorsStayRecorded(states[k - 1], labels[..k - 1], labels[k - 1], states[k], labels[..k]);
    }
  }

  lemma {:induction false} RunRecordsTasks(states: seq<State>, labels: seq<Label>, k: nat)
    requires IsRun(states, labels) && k <= |labels|
    ensures TasksRecorded(states[k], labels[..k])
  {
    if k == 0 {
    } else {
      RunRecordsTasks(states, labels, k - 1);
      RunKeepsTasks(states, labels, k - 1);
      TasksStayRecorded(states[k - 1], labels[..k - 1], labels[k - 1]);
      assert labels[..k] == labels[..k - 1] + [labels[k - 1]];
    }
  }

  // ---------------------------------------------------------------- what the collector promises

  /** When `Wait` has returned, the function of every submitted task returned exactly once, or the semaphore
      refused it once and it never ran. */
  lemma {:induction false} EachTaskRanOnce(states: seq<State>, labels: seq<Label>, k: nat)
    requires IsRun(states, labels) && k <= |labels| && states[k].caller == Returned
    ensures forall t: nat :: t < Submitted(labels[..k]) ==> Finished(labels[..k], t) + Refused(labels[..k], t) == 1
  {
    RunKeepsInv(states, labels, k);
    RunRecordsTasks(states, labels, k);
    var s := states[k];
    forall t: nat | t < Submitted(labels[..k]) ensures Finished(labels[..k], t) + Refused(labels[..k], t) == 1 {
      assert TaskOk(s.tasks[t]) && TaskRecord(s, labels[..k], t);
    }
  }

  lemma {:induction false} AllCollected(s: State)
    requires Inv(s) && s.caller == Returned
    ensures multiset(s.errs) == All(s.tasks, Output)
  {
    AllSame(s.tasks, s.tasks, Delivered, Output);
  }

  lemma {:induction false} AnswerForm(s: State)
    ensures Errors(WaitAnswer(s)) == s.errs
    ensures WaitAnswer(s).Nil? <==> |multiset(s.errs)| == 0
    ensures WaitAnswer(s).One? <==> |multiset(s.errs)| == 1
  {
  }

  /** When `Wait` has returned, its answer holds exactly the errors that task functions returned and the semaphore
      gave: nothing without any, a single one as it is, several joined. */
  lemma {:induction false} WaitReturnsEveryError(states: seq<State>, labels: seq<Label>, k: nat)
    requires IsRun(states, labels) && k <= |labels| && states[k].caller == Returned
    ensures multiset(Errors(WaitAnswer(states[k]))) == Reported(labels[..k])
    ensures WaitAnswer(states[k]).Nil? <==> |Reported(labels[..k])| == 0
    ensures WaitAnswer(states[k]).One? <==> |Reported(labels[..k])| == 1
  {
    RunKeepsInv(states, labels, k);
    RunRecordsErrors(states, labels, k);
    AllCollected(states[k]);
    AnswerForm(states[k]);
  }

  /** No task ever sends on the closed channel. */
  lemma {:induction false} NeverPanics(states: seq<State>, labels: seq<Label>, k: nat)
    requires IsRun(states, labels) && k <= |labels|
    ensures !states[k].panicked
    ensures forall t :: 0 <= t < |states[k].tasks| && states[k].tasks[t].phase.Sending? ==> !states[k].closed
  {
    RunKeepsInv(states, labels, k);
  }

  /** At most `max` task functions run at once, and never more permits are out. */
  lemma {:induction false} ConcurrencyIsBounded(states: seq<State>, labels: seq<Label>, k: nat)
    requires IsRun(states, labels) && k <= |labels|
    ensures states[k].max == states[0].max
    ensures RunningCount(states[k].tasks) <= Holders(states[k].tasks) <= states[0].max
  {
    RunKeepsInv(states, labels, k);
    MaxIsFixed(states, labels, k);
    RunningAtMostHolders(states[k].tasks);
  }

  lemma {:induction false} MaxIsFixed(states: seq<State>, labels: seq<Label>, k: nat)
    requires IsRun(states, labels) && k <= |labels|
    ensures states[k].max == states[0].max
  {
    if k == 0 {
    } else {
      MaxIsFixed(states, labels, k - 1);
    }
  }

  /** A call of `Wait` is never stuck, although the channel is bounded and tasks send while they hold
      permits: until it returns, some goroutine can act without a new task or a failing semaphore. */
  lemma {:induction false} WaitIsNeverStuck(states: seq<State>, labels: seq<Label>, k: nat) returns (l: Label)
    requires IsRun(states, labels) && k <= |labels| && 0 < states[k].max
    requires states[k].caller in {Waiting, Drained, Closed}
    ensures !l.Go? && !l.AcquireFails? && Enabled(states[k], l) && Next(states[k], l) != states[k]
  {
    RunKeepsInv(states, labels, k);
    var s := states[k];
    if s.buffer != [] {
      l := Collect;
    } else if t :| 0 <= t < |s.tasks| && s.tasks[t].phase.Sending? {
      l := Send(t);
    } else if t :| 0 <= t < |s.tasks| && s.tasks[t].phase.Running? {
      l := Finish(t, None);
    } else if t :| 0 <= t < |s.tasks| && s.tasks[t].phase.Releasing? {
      l := ReleasePermit(t);
    } else if t :| 0 <= t < |s.tasks| && s.tasks[t].phase.Exiting? {
      l := Exit(t);
    } else if t :| 0 <= t < |s.tasks| && s.tasks[t].phase.Queued? {
      NobodyHolds(s.tasks);
      l := Acquire(t);
    } else {
      l := if s.caller == Waiting then WaitGroupEmpty else if s.caller == Drained then CloseInput
           else if s.done then Return else CollectorExits;
    }
  }
}
