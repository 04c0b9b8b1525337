/** The write-once cell: a result under a read-write mutex and a channel that is closed once a result is
    there.  Any number of threads set, wait and look; the test of the stored result and its
    assignment are separate steps, so the mutex has work to do. */
module SetOnce {
  import opened Wrappers

  type Value = nat
  type Error = nat

  /** What a cell stores. */
  datatype Result = IsValue(value: Value) | IsError(error: Error)

  /** What a call hands back. */
  datatype Reply = Nil | AlreadySet | Stored(result: Result) | NotSet | Cancelled

  datatype Call = SetValue(value: Value) | SetError(error: Error) | SetResult(value: Value, err: Option<Error>)
                | Wait | WaitWithContext | Look
  {
    predicate Sets() { SetValue? || SetError? || SetResult? }

    /** What the call tries to store. */
    function Argument(): Result
      requires Sets()
    {
      match this
      case SetValue(value) => IsValue(value)
      case SetError(error) => IsError(error)
      case SetResult(value, err) => if err.Some? then IsError(err.value) else IsValue(value)
    }
  }

  /** `Tested` has found the channel open; `Fresh` has found no result under the lock. */
  datatype Phase = Start | Tested | Locked | Fresh | Unlocking(reply: Reply) | Closing(reply: Reply)
                 | Reading | ReadLocked | ReadUnlocking(reply: Reply) | Finished(reply: Reply)

  datatype Thread = Thread(call: Call, phase: Phase)

  datatype State = State(res: Option<Result>, closed: bool, writer: Option<nat>, readers: set<nat>, threads: seq<Thread>)

  datatype Label =
    | Arrive(call: Call)
    | TestDone(t: nat)
    | Lock(t: nat)
    | TestResult(t: nat)
    | Store(t: nat)
    | Unlock(t: nat)
    | CloseDone(t: nat)
    | Proceed(t: nat)
    | Cancel(t: nat)
    | ReadLock(t: nat)
    | Read(t: nat)
    | ReadUnlock(t: nat)

  predicate At(s: State, t: nat, phase: Phase) {
    t < |s.threads| && s.threads[t].phase == phase
  }

  predicate Enabled(s: State, l: Label) {
    match l
    case Arrive(_) => true
    case TestDone(t) => At(s, t, Start) && s.threads[t].call.Sets()
    case Lock(t) => At(s, t, Tested) && s.writer.None? && s.readers == {}
    case TestResult(t) => At(s, t, Locked)
    case Store(t) => At(s, t, Fresh)
    case Unlock(t) => t < |s.threads| && s.threads[t].phase.Unlocking?
    case CloseDone(t) => t < |s.threads| && s.threads[t].phase.Closing?
    case Proceed(t) => At(s, t, Start) && (s.threads[t].call.Look? || (!s.threads[t].call.Sets() && s.closed))
    case Cancel(t) => At(s, t, Start) && s.threads[t].call.WaitWithContext?
    case ReadLock(t) => At(s, t, Reading) && s.writer.None?
    case Read(t) => At(s, t, ReadLocked)
    case ReadUnlock(t) => t < |s.threads| && s.threads[t].phase.ReadUnlocking?
  }

  function Move(s: State, t: nat, phase: Phase): State
    requires t < |s.threads|
  {
    s.(threads := s.threads[t := s.threads[t].(phase := phase)])
  }

  /** The deferred calls run in reverse order: the mutex is given up before the channel is closed. */
  function Next(s: State, l: Label): State
    requires Enabled(s, l)
  {
    match l
    case Arrive(call) => s.(threads := s.threads + [Thread(call, Start)])
    case TestDone(t) => Move(s, t, if s.closed then Closing(AlreadySet) else Tested)
    case Lock(t) => Move(s, t, Locked).(writer := Some(t))
    case TestResult(t) => Move(s, t, if s.res.Some? then Unlocking(AlreadySet) else Fresh)
    case Store(t) =>
      Move(s, t, Unlocking(Nil)).(res := if s.threads[t].call.Sets() then Some(s.threads[t].call.Argument()) else s.res)
    case Unlock(t) => Move(s, t, Closing(s.threads[t].phase.reply)).(writer := None)
    case CloseDone(t) => Move(s, t, Finished(s.threads[t].phase.reply)).(closed := true)
    case Proceed(t) => Move(s, t, Reading)
    case Cancel(t) => Move(s, t, Finished(Cancelled))
    case ReadLock(t) => Move(s, t, ReadLocked).(readers := s.readers + {t})
    case Read(t) => Move(s, t, ReadUnlocking(if s.res.Some? then Stored(s.res.value) else NotSet))
    case ReadUnlock(t) => Move(s, t, Finished(s.threads[t].phase.reply)).(readers := s.readers - {t})
  }

  predicate Initial(s: State) {
    s == State(None, false, None, {}, [])
  }

  ghost predicate IsRun(states: seq<State>, labels: seq<Label>) {
    && |states| == |labels| + 1 && Initial(states[0])
    && forall i :: 0 <= i < |labels| ==> Enabled(states[i], labels[i]) && states[i + 1] == Next(states[i], labels[i])
  }

  // ---------------------------------------------------------------- the invariant

  predicate InSection(p: Phase) { p.Locked? || p.Fresh? || p.Unlocking? }

  predicate InReadSection(p: Phase) { p.ReadLocked? || p.ReadUnlocking? }

  /** The thread's call was given this reply, or will be once its deferred calls have run. */
  predicate Replied(th: Thread, reply: Reply) {
    th.phase in {Unlocking(reply), Closing(reply), ReadUnlocking(reply), Finished(reply)}
  }

  predicate SetterOk(s: State, th: Thread)
    requires th.call.Sets()
  {
    match th.phase
    case Start => true
    case Tested => true
    case Locked => true
    case Fresh => s.res.None?
    case Unlocking(reply) => s.res.Some? && reply in {Nil, AlreadySet}
    case Closing(reply) => s.res.Some? && reply in {Nil, AlreadySet}
    case Finished(reply) => s.closed && reply in {Nil, AlreadySet}
    case _ => false
  }

  predicate AnswerOk(s: State, call: Call, reply: Reply) {
    match reply
    case Stored(result) => s.res == Some(result)
    case NotSet => call.Look?
    case Cancelled => call.WaitWithContext?
    case _ => false
  }

  predicate ReaderOk(s: State, th: Thread)
    requires !th.call.Sets()
  {
    match th.phase
    case Start => true
    case Reading => th.call.Look? || s.closed
    case ReadLocked => th.call.Look? || s.closed
    case ReadUnlocking(reply) => AnswerOk(s, th.call, reply)
    case Finished(reply) => AnswerOk(s, th.call, reply)
    case _ => false
  }

  predicate ThreadOk(s: State, t: nat)
    requires t < |s.threads|
  {
    && (if s.threads[t].call.Sets() then SetterOk(s, s.threads[t]) else ReaderOk(s, s.threads[t]))
    && (InSection(s.threads[t].phase) <==> s.writer == Some(t))
    && (InReadSection(s.threads[t].phase) <==> t in s.readers)
  }

  /** Exactly one thread is told that it stored the result. */
  ghost predicate WinnerOk(s: State) {
    if s.res.None? then forall t :: 0 <= t < |s.threads| ==> !Replied(s.threads[t], Nil)
    else exists w :: IsWinner(s, w)
  }

  ghost predicate IsWinner(s: State, w: nat) {
    && w < |s.threads| && s.res.Some? && s.threads[w].call.Sets() && s.threads[w].call.Argument() == s.res.value
    && forall t :: 0 <= t < |s.threads| ==> (Replied(s.threads[t], Nil) <==> t == w)
  }

  ghost predicate Inv(s: State) {
    && (s.closed ==> s.res.Some?)
    && (s.writer.Some? ==> s.readers == {} && s.writer.value < |s.threads|)
    && (forall r :: r in s.readers ==> r < |s.threads|)
    && (forall t :: 0 <= t < |s.threads| ==> ThreadOk(s, t))
    && WinnerOk(s)
  }

  // ---------------------------------------------------------------- every step keeps it

  predicate Moves(l: Label, t: nat) {
    if l.Arrive? then false else l.t == t
  }

  lemma ResultStays(s: State, l: Label)
    requires Inv(s) && Enabled(s, l)
    ensures s.res.Some? ==> Next(s, l).res == s.res
  {
    if l.Store? {
      assert ThreadOk(s, l.t);
    }
  }

  lemma OtherThreadOk(s: State, l: Label, t: nat)
    requires Inv(s) && Enabled(s, l) && t < |s.threads| && !Moves(l, t)
    ensures ThreadOk(Next(s, l), t)
  {
    assert ThreadOk(s, t);
    ResultStays(s, l);
    if !l.Arrive? { assert ThreadOk(s, l.t); }
  }

  lemma MovingThreadOk(s: State, l: Label)
    requires Inv(s) && Enabled(s, l) && !l.Arrive?
    ensures ThreadOk(Next(s, l), l.t)
  {
    assert ThreadOk(s, l.t);
  }

  lemma StepKeepsThreads(s: State, l: Label)
    requires Inv(s) && Enabled(s, l)
    ensures forall t :: 0 <= t < |Next(s, l).threads| ==> ThreadOk(Next(s, l), t)
  {
    var s' := Next(s, l);
    forall t | 0 <= t < |s'.threads| ensures ThreadOk(s', t) {
      if t < |s.threads| && !Moves(l, t) {
        OtherThreadOk(s, l, t);
      } else if !l.Arrive? {
        MovingThreadOk(s, l);
      }
    }
  }

  /** Only the assignment makes a winner, and no other step changes who was told so. */
  lemma StepKeepsWinner(s: State, l: Label)
    requires Inv(s) && Enabled(s, l)
    ensures WinnerOk(Next(s, l))
  {
    var s' := Next(s, l);
    if l.Store? {
      assert ThreadOk(s, l.t);
      assert IsWinner(s', l.t);
    } else {
      if !l.Arrive? { assert ThreadOk(s, l.t); }
      forall t | 0 <= t < |s'.threads| ensures Replied(s'.threads[t], Nil) <==> t < |s.threads| && Replied(s.threads[t], Nil) {
      }
      if s.res.Some? {
        var w :| IsWinner(s, w);
        assert IsWinner(s', w);
      }
    }
  }

  lemma StepKeepsInv(s: State, l: Label)
    requires Inv(s) && Enabled(s, l)
    ensures Inv(Next(s, l))
  {
    StepKeepsThreads(s, l);
    StepKeepsWinner(s, l);
    ResultStays(s, l);
    if !l.Arrive? { assert ThreadOk(s, l.t); }
  }

  lemma {:induction false} RunKeepsInv(states: seq<State>, labels: seq<Label>, k: nat)
    requires IsRun(states, labels) && k <= |labels|
    ensures Inv(states[k])
  {
    if k == 0 {
    } else {
      RunKeepsInv(states, labels, k - 1);
      StepKeepsInv(states[k - 1], labels[k - 1]);
    }
  }

  // ---------------------------------------------------------------- what the cell promises

  /** A closed channel means a stored result, and two critical sections never overlap. */
  lemma DoneMeansStored(states: seq<State>, labels: seq<Label>, k: nat)
    requires IsRun(states, labels) && k <= |labels|
    ensures states[k].closed ==> states[k].res.Some?
    ensures forall t, u :: 0 <= t < |states[k].threads| && 0 <= u < |states[k].threads| && t != u ==>
              InSection(states[k].threads[t].phase) ==>
                !InSection(states[k].threads[u].phase) && !InReadSection(states[k].threads[u].phase)
  {
    RunKeepsInv(states, labels, k);
    var s := states[k];
    forall t, u | 0 <= t < |s.threads| && 0 <= u < |s.threads| && t != u && InSection(s.threads[t].phase)
      ensures !InSection(s.threads[u].phase) && !InReadSection(s.threads[u].phase)
    {
      assert ThreadOk(s, t) && ThreadOk(s, u);
    }
  }

  /** A stored result never changes. */
  lemma {:induction false} ResultNeverChanges(states: seq<State>, labels: seq<Label>, i: nat, k: nat)
    requires IsRun(states, labels) && i <= k <= |labels| && states[i].res.Some?
    ensures states[k].res == states[i].res
    decreases k
  {
    if i == k {
    } else {
      ResultNeverChanges(states, labels, i, k - 1);
      RunKeepsInv(states, labels, k - 1);
      ResultStays(states[k - 1], labels[k - 1]);
    }
  }

  /** The calls made so far, in order. */
  function Arrived(labels: seq<Label>): seq<Call> {
    if labels == [] then []
    else Arrived(labels[..|labels| - 1]) + if labels[|labels| - 1].Arrive? then [labels[|labels| - 1].call] else []
  }

  /** Thread `t` runs the call that arrived as number `t`. */
  lemma {:induction false} ThreadsArrived(states: seq<State>, labels: seq<Label>, k: nat)
    requires IsRun(states, labels) && k <= |labels|
    ensures |states[k].threads| == |Arrived(labels[..k])|
    ensures forall t :: 0 <= t < |states[k].threads| ==> states[k].threads[t].call == Arrived(labels[..k])[t]
  {
    if k == 0 {
    } else {
      ThreadsArrived(states, labels, k - 1);
      assert Enabled(states[k - 1], labels[k - 1]) && states[k] == Next(states[k - 1], labels[k - 1]);
      assert labels[..k][..k - 1] == labels[..k - 1];
    }
  }

  /** The result is the call's argument: with an error the error, otherwise the value. */
  predicate Carries(call: Call, result: Result) {
    match call
    case SetValue(value) => result == IsValue(value)
    case SetError(error) => result == IsError(error)
    case SetResult(_, Some(error)) => result == IsError(error)
    case SetResult(value, None) => result == IsValue(value)
    case _ => false
  }

  lemma ArgumentIsCarried(call: Call)
    requires call.Sets()
    ensures Carries(call, call.Argument())
  {
  }

  /** The stored result is the argument of the one call that is told nil. */
  lemma TheWinner(states: seq<State>, labels: seq<Label>, k: nat) returns (w: nat)
    requires IsRun(states, labels) && k <= |labels| && states[k].res.Some?
    ensures w < |states[k].threads| == |Arrived(labels[..k])| && Carries(Arrived(labels[..k])[w], states[k].res.value)
    ensures forall t :: 0 <= t < |states[k].threads| ==> (Replied(states[k].threads[t], Nil) <==> t == w)
  {
    RunKeepsInv(states, labels, k);
    ThreadsArrived(states, labels, k);
    w :| IsWinner(states[k], w);
    ArgumentIsCarried(states[k].threads[w].call);
  }

  /** Once any setter has finished, exactly one setter is told nil; the cell stores its argument, and every
      other finished setter was told that the value is already set. */
  lemma ExactlyOneSetterWins(states: seq<State>, labels: seq<Label>, k: nat, f: nat) returns (w: nat)
    requires IsRun(states, labels) && k <= |labels|
    requires f < |states[k].threads| && states[k].threads[f].call.Sets() && states[k].threads[f].phase.Finished?
    ensures w < |states[k].threads| && Replied(states[k].threads[w], Nil)
    ensures w < |Arrived(labels[..k])| && states[k].res.Some? && Carries(Arrived(labels[..k])[w], states[k].res.value)
    ensures forall t :: 0 <= t < |states[k].threads| && t != w && states[k].threads[t].call.Sets() ==>
              states[k].threads[t].phase.Finished? ==> states[k].threads[t].phase == Finished(AlreadySet)
  {
    RunKeepsInv(states, labels, k);
    var s := states[k];
    assert ThreadOk(s, f);
    w := TheWinner(states, labels, k);
    forall t | 0 <= t < |s.threads| && t != w && s.threads[t].call.Sets() && s.threads[t].phase.Finished?
      ensures s.threads[t].phase == Finished(AlreadySet)
    {
      assert ThreadOk(s, t) && !Replied(s.threads[t], Nil);
    }
  }

  /** Every finished `Wait` returned the argument of the one setter that was told nil, never `NotSet`; with a context
      it may have been cancelled instead. */
  lemma WaitReturnsResult(states: seq<State>, labels: seq<Label>, k: nat, t: nat) returns (w: nat)
    requires IsRun(states, labels) && k <= |labels|
    requires t < |states[k].threads| && states[k].threads[t].phase.Finished?
    requires states[k].threads[t].call.Wait? || states[k].threads[t].call.WaitWithContext?
    ensures var reply := states[k].threads[t].phase.reply;
            if reply == Cancelled then states[k].threads[t].call.WaitWithContext?
            else
              && reply.Stored? && states[k].res == Some(reply.result)
              && w < |states[k].threads| == |Arrived(labels[..k])| && Replied(states[k].threads[w], Nil)
              && Carries(Arrived(labels[..k])[w], reply.result)
  {
    RunKeepsInv(states, labels, k);
    assert ThreadOk(states[k], t);
    w := 0;
    if states[k].res.Some? {
      w := TheWinner(states, labels, k);
    }
  }

  predicate Looked(th: Thread) { th.phase.Finished? || th.phase.ReadUnlocking? }

  /** A look is answered with the result stored at that step, and the answer stays. */
  lemma LookStep(s: State, l: Label, t: nat)
    requires Inv(s) && Enabled(s, l) && t < |Next(s, l).threads| && Next(s, l).threads[t].call.Look?
    ensures t < |s.threads| ==> s.threads[t].call.Look?
    ensures Looked(Next(s, l).threads[t]) && s.res.Some? ==>
              || Next(s, l).threads[t].phase.reply == Stored(s.res.value)
              || (t < |s.threads| && Looked(s.threads[t]) && Next(s, l).threads[t].phase.reply == s.threads[t].phase.reply)
  {
    if t < |s.threads| { assert ThreadOk(s, t); }
  }

  /** A `Result` call that begins after some setter has returned sees the stored result. */
  lemma {:induction false} LookAfterSetSeesIt(states: seq<State>, labels: seq<Label>, i: nat, k: nat, t: nat)
    requires IsRun(states, labels) && i <= k <= |labels| && states[i].res.Some?
    requires |states[i].threads| <= t < |states[k].threads| && states[k].threads[t].call.Look?
    ensures (states[k].threads[t].phase.Finished? || states[k].threads[t].phase.ReadUnlocking?) ==>
              states[k].threads[t].phase.reply == Stored(states[i].res.value)
    decreases k
  {
    RunKeepsInv(states, labels, k - 1);
    assert states[k] == Next(states[k - 1], labels[k - 1]);
    ResultNeverChanges(states, labels, i, k - 1);
    LookStep(states[k - 1], labels[k - 1], t);
    if t < |states[k - 1].threads| {
      LookAfterSetSeesIt(states, labels, i, k - 1, t);
    }
  }

  /** While some call is unfinished, a thread can act, unless all that is left is waiting and no setter ever
      came. */
  lemma NeverStuck(states: seq<State>, labels: seq<Label>, k: nat, c: nat) returns (l: Label)
    requires IsRun(states, labels) && k <= |labels|
    requires c < |states[k].threads| && !states[k].threads[c].phase.Finished?
    requires exists t :: 0 <= t < |states[k].threads| && states[k].threads[t].call.Sets()
    ensures !l.Arrive? && !l.Cancel? && Enabled(states[k], l)
  {
    RunKeepsInv(states, labels, k);
    var s := states[k];
    assert ThreadOk(s, c);
    if s.writer.Some? {
      var w := s.writer.value;
      assert ThreadOk(s, w);
      l := if s.threads[w].phase.Locked? then TestResult(w) else if s.threads[w].phase.Fresh? then Store(w) else Unlock(w);
    } else if s.readers != {} {
      var r :| r in s.readers;
      assert ThreadOk(s, r);
      l := if s.threads[r].phase.ReadLocked? then Read(r) else ReadUnlock(r);
    } else if s.threads[c].call.Sets() {
      l := SetterStep(s, c);
    } else if s.threads[c].phase.Reading? {
      l := ReadLock(c);
    } else if s.closed || s.threads[c].call.Look? {
      l := Proceed(c);
    } else {
      var t :| 0 <= t < |s.threads| && s.threads[t].call.Sets();
      assert ThreadOk(s, t);
      l := SetterStep(s, t);
    }
  }

  lemma SetterStep(s: State, t: nat) returns (l: Label)
    requires t < |s.threads| && s.threads[t].call.Sets() && !s.threads[t].phase.Finished? && ThreadOk(s, t)
    requires s.writer.None? && s.readers == {}
    ensures !l.Arrive? && !l.Cancel? && Enabled(s, l)
  {
    l := if s.threads[t].phase.Start? then TestDone(t) else if s.threads[t].phase.Tested? then Lock(t) else CloseDone(t);
  }
}
