/** The resizable counting semaphore: a 64-bit counter and limit under a mutex, with a condition
    variable.  Every critical section is one step; waiting releases the mutex in the same step that
    puts the caller to sleep. */
module AdjustableSemaphore {

  const MAX_INT64 := 0x7FFF_FFFF_FFFF_FFFF
  const TWO_TO_64 := 0x1_0000_0000_0000_0000

  predicate IsInt64(x: int) { -MAX_INT64 - 1 <= x <= MAX_INT64 }

  /** Two's complement wrap-around of a sum of two 64-bit integers. */
  function Wrap(x: int): (r: int)
    ensures IsInt64(x) ==> r == x
    ensures -TWO_TO_64 <= x <= TWO_TO_64 ==> IsInt64(r) && r in {x, x - TWO_TO_64, x + TWO_TO_64}
  {
    if x > MAX_INT64 then x - TWO_TO_64 else if x < -MAX_INT64 - 1 then x + TWO_TO_64 else x
  }

  datatype Phase = Idle | Asleep(n: int) | Woken(n: int)

  /** `held` are the permits the thread was granted and has not released. */
  datatype Thread = Thread(held: int, phase: Phase)

  datatype State = State(used: int, limit: int, threads: seq<Thread>) {
    predicate Fits(n: int) { Wrap(used + n) <= limit }
  }

  datatype Label =
    | Acquire(t: nat, n: int, cancelled: bool)
    | Recheck(t: nat, cancelled: bool)
    | TryAcquire(t: nat, n: int)
    | SetLimit(limit: int)
    | Release(t: nat, n: int)
    | CancelBroadcast

  /** A broadcast wakes every sleeper; each still has to look again. */
  function WakeAll(ts: seq<Thread>): (r: seq<Thread>)
    ensures |r| == |ts|
    ensures forall i :: 0 <= i < |ts| ==> r[i].held == ts[i].held
    ensures forall i :: 0 <= i < |ts| ==> r[i].phase == if ts[i].phase.Asleep? then Woken(ts[i].phase.n) else ts[i].phase
  {
    seq(|ts|, i requires 0 <= i < |ts| => if ts[i].phase.Asleep? then ts[i].(phase := Woken(ts[i].phase.n)) else ts[i])
  }

  predicate Enabled(s: State, l: Label) {
    match l
    case Acquire(t, n, _) => t < |s.threads| && s.threads[t].phase.Idle? && IsInt64(n)
    case Recheck(t, _) => t < |s.threads| && s.threads[t].phase.Woken?
    case TryAcquire(t, n) => t < |s.threads| && s.threads[t].phase.Idle? && IsInt64(n)
    case SetLimit(limit) => IsInt64(limit)
    case Release(t, n) => t < |s.threads| && s.threads[t].phase.Idle? && IsInt64(n)
    case CancelBroadcast => true
  }

  function Grant(s: State, t: nat, n: int): State
    requires t < |s.threads|
  {
    s.(used := Wrap(s.used + n), threads := s.threads[t := Thread(s.threads[t].held + n, Idle)])
  }

  /** The loop test of `Acquire`, taken, given up or slept on. */
  function Attempt(s: State, t: nat, n: int, cancelled: bool): State
    requires t < |s.threads|
  {
    if s.Fits(n) then Grant(s, t, n)
    else s.(threads := s.threads[t := s.threads[t].(phase := if cancelled then Idle else Asleep(n))])
  }

  /** A release the code panics on changes nothing. */
  function Next(s: State, l: Label): State
    requires Enabled(s, l)
  {
    match l
    case Acquire(t, n, cancelled) => if n <= 0 then s else Attempt(s, t, n, cancelled)
    case Recheck(t, cancelled) => Attempt(s, t, s.threads[t].phase.n, cancelled)
    case TryAcquire(t, n) => if n <= 0 || !s.Fits(n) then s else Grant(s, t, n)
    case SetLimit(limit) => if limit <= 0 then s else s.(limit := limit, threads := WakeAll(s.threads))
    case Release(t, n) =>
      if n <= 0 || s.used < n then s
      else s.(used := s.used - n, threads := WakeAll(s.threads[t := s.threads[t].(held := s.threads[t].held - n)]))
    case CancelBroadcast => s.(threads := WakeAll(s.threads))
  }

  ghost predicate Initial(s: State) {
    s.used == 0 && 0 < s.limit <= MAX_INT64 && forall t :: 0 <= t < |s.threads| ==> s.threads[t] == Thread(0, Idle)
  }

  ghost predicate IsRun(states: seq<State>, labels: seq<Label>) {
    && |states| == |labels| + 1 && Initial(states[0])
    && forall i :: 0 <= i < |labels| ==> Enabled(states[i], labels[i]) && states[i + 1] == Next(states[i], labels[i])
  }

  // ---------------------------------------------------------------- overflow

  /** No limit is above `bound`, no request is so large that it could wrap on top of it, and permits are
      released by their holder. */
  predicate WithinBound(s: State, l: Label, bound: int) {
    match l
    case Acquire(_, n, _) => n <= MAX_INT64 - bound
    case TryAcquire(_, n) => n <= MAX_INT64 - bound
    case SetLimit(limit) => limit <= bound
    case Release(t, n) => t < |s.threads| && n <= s.threads[t].held
    case _ => true
  }

  ghost predicate BoundedRun(states: seq<State>, labels: seq<Label>, bound: int) {
    && IsRun(states, labels) && states[0].limit <= bound <= MAX_INT64
    && forall i :: 0 <= i < |labels| ==> WithinBound(states[i], labels[i], bound)
  }

  // ---------------------------------------------------------------- the invariant

  function Sum(ts: seq<Thread>): int {
    if ts == [] then 0 else Sum(ts[..|ts| - 1]) + ts[|ts| - 1].held
  }

  lemma {:induction false} SumUpdate(ts: seq<Thread>, t: nat, th: Thread)
    requires t < |ts|
    ensures Sum(ts[t := th]) == Sum(ts) - ts[t].held + th.held
  {
    var n := |ts| - 1;
    if t < n {
      assert ts[t := th][..n] == ts[..n][t := th];
      SumUpdate(ts[..n], t, th);
    } else {
      assert ts[t := th][..n] == ts[..n];
    }
  }

  lemma {:induction false} SumSame(a: seq<Thread>, b: seq<Thread>)
    requires |a| == |b| && forall i :: 0 <= i < |a| ==> a[i].held == b[i].held
    ensures Sum(a) == Sum(b)
  {
    if a == [] {
    } else {
      SumSame(a[..|a| - 1], b[..|b| - 1]);
    }
  }

  predicate ThreadOk(s: State, th: Thread, bound: int) {
    && 0 <= th.held
    && (!th.phase.Idle? ==> 0 < th.phase.n <= MAX_INT64 - bound)
    && (th.phase.Asleep? ==> s.limit < s.used + th.phase.n)
  }

  ghost predicate Inv(s: State, bound: int) {
    && 0 <= s.used <= bound <= MAX_INT64 && 0 < s.limit <= bound
    && s.used == Sum(s.threads)
    && forall t :: 0 <= t < |s.threads| ==> ThreadOk(s, s.threads[t], bound)
  }

  lemma AttemptKeepsInv(s: State, t: nat, n: int, cancelled: bool, bound: int)
    requires Inv(s, bound) && t < |s.threads| && 0 < n <= MAX_INT64 - bound
    ensures Inv(Attempt(s, t, n, cancelled), bound)
  {
    var s' := Attempt(s, t, n, cancelled);
    SumUpdate(s.threads, t, s'.threads[t]);
    forall i | 0 <= i < |s'.threads| ensures ThreadOk(s', s'.threads[i], bound) {
      assert ThreadOk(s, s.threads[i], bound);
    }
  }

  lemma WakeKeepsInv(s: State, s': State, bound: int)
    requires 0 <= s'.used <= bound <= MAX_INT64 && 0 < s'.limit <= bound && s'.used == Sum(s.threads)
    requires forall t :: 0 <= t < |s.threads| ==> 0 <= s.threads[t].held
    requires forall t :: 0 <= t < |s.threads| && !s.threads[t].phase.Idle? ==> 0 < s.threads[t].phase.n <= MAX_INT64 - bound
    requires s'.threads == WakeAll(s.threads)
    ensures Inv(s', bound)
  {
    SumSame(s.threads, s'.threads);
  }

  lemma {:induction false} SumAtLeast(ts: seq<Thread>, t: nat)
    requires t < |ts| && forall i :: 0 <= i < |ts| ==> 0 <= ts[i].held
    ensures ts[t].held <= Sum(ts) && 0 <= Sum(ts)
  {
    var n := |ts| - 1;
    if n == 0 {
    } else {
      SumAtLeast(ts[..n], if t < n then t else 0);
    }
  }

  lemma ReleaseKeepsInv(s: State, t: nat, n: int, bound: int)
    requires Inv(s, bound) && Enabled(s, Release(t, n)) && 0 < n <= s.used && n <= s.threads[t].held
    ensures Inv(Next(s, Release(t, n)), bound)
  {
    var th := s.threads[t].(held := s.threads[t].held - n);
    assert forall i :: 0 <= i < |s.threads| ==> ThreadOk(s, s.threads[i], bound);
    SumUpdate(s.threads, t, th);
    WakeKeepsInv(s.(threads := s.threads[t := th]), Next(s, Release(t, n)), bound);
  }

  lemma StepKeepsInv(s: State, l: Label, bound: int)
    requires Inv(s, bound) && Enabled(s, l) && WithinBound(s, l, bound)
    ensures Inv(Next(s, l), bound)
  {
    assert forall t :: 0 <= t < |s.threads| ==> ThreadOk(s, s.threads[t], bound);
    match l
    case Acquire(t, n, cancelled) => if n > 0 { AttemptKeepsInv(s, t, n, cancelled, bound); }
    case Recheck(t, cancelled) => AttemptKeepsInv(s, t, s.threads[t].phase.n, cancelled, bound);
    case TryAcquire(t, n) => if n > 0 && s.Fits(n) { AttemptKeepsInv(s, t, n, true, bound); }
    case SetLimit(limit) => if limit > 0 { WakeKeepsInv(s, Next(s, l), bound); }
    case Release(t, n) =>
      if 0 < n <= s.used { ReleaseKeepsInv(s, t, n, bound); }
    case CancelBroadcast => WakeKeepsInv(s, Next(s, l), bound);
  }

  lemma {:induction false} SumZero(ts: seq<Thread>)
    requires forall t :: 0 <= t < |ts| ==> ts[t].held == 0
    ensures Sum(ts) == 0
  {
    if ts == [] {
    } else {
      SumZero(ts[..|ts| - 1]);
    }
  }

  lemma {:induction false} RunKeepsInv(states: seq<State>, labels: seq<Label>, bound: int, k: nat)
    requires BoundedRun(states, labels, bound) && k <= |labels|
    ensures Inv(states[k], bound)
  {
    if k == 0 {
      SumZero(states[0].threads);
    } else {
      RunKeepsInv(states, labels, bound, k - 1);
      StepKeepsInv(states[k - 1], labels[k - 1], bound);
    }
  }

  // ---------------------------------------------------------------- what the semaphore promises

  /** In every reachable state the counter is the sum of the outstanding permits, so a Release of
      permits one holds never panics, and no sleeper's request would fit. */
  lemma PermitsConserved(states: seq<State>, labels: seq<Label>, bound: int, k: nat)
    requires BoundedRun(states, labels, bound) && k <= |labels|
    ensures states[k].used == Sum(states[k].threads)
    ensures forall t :: 0 <= t < |states[k].threads| ==> 0 <= states[k].threads[t].held <= states[k].used
    ensures forall t :: 0 <= t < |states[k].threads| && states[k].threads[t].phase.Asleep? ==>
              !states[k].Fits(states[k].threads[t].phase.n)
  {
    RunKeepsInv(states, labels, bound, k);
    var s := states[k];
    forall t | 0 <= t < |s.threads|
      ensures 0 <= s.threads[t].held <= s.used
      ensures s.threads[t].phase.Asleep? ==> !s.Fits(s.threads[t].phase.n)
    {
      assert ThreadOk(s, s.threads[t], bound);
      assert forall i :: 0 <= i < |s.threads| ==> ThreadOk(s, s.threads[i], bound);
      SumAtLeast(s.threads, t);
    }
  }

  /** The counter grows only to a value within the limit then in force. */
  lemma GrowsWithinLimit(s: State, l: Label, bound: int)
    requires Inv(s, bound) && Enabled(s, l) && WithinBound(s, l, bound)
    ensures s.used < Next(s, l).used ==> Next(s, l).used <= s.limit && Next(s, l).limit == s.limit
  {
    assert forall t :: 0 <= t < |s.threads| ==> ThreadOk(s, s.threads[t], bound);
  }

  /** Once at or below the limit, the counter stays there until the limit is next changed. */
  lemma {:induction false} StaysWithinLimit(states: seq<State>, labels: seq<Label>, bound: int, i: nat, k: nat)
    requires BoundedRun(states, labels, bound) && i <= k <= |labels|
    requires states[i].used <= states[i].limit
    requires forall j :: i <= j < k ==> !labels[j].SetLimit?
    ensures states[k].used <= states[k].limit && states[k].limit == states[i].limit
    decreases k
  {
    if i == k {
    } else {
      StaysWithinLimit(states, labels, bound, i, k - 1);
      RunKeepsInv(states, labels, bound, k - 1);
      GrowsWithinLimit(states[k - 1], labels[k - 1], bound);
    }
  }

  /** The thread that takes the step, if it is one thread's. */
  predicate By(l: Label, t: nat) {
    (l.Acquire? || l.Recheck? || l.TryAcquire? || l.Release?) && l.t == t
  }

  lemma OthersKeep(s: State, l: Label, t: nat)
    requires Enabled(s, l) && t < |s.threads| && !By(l, t)
    ensures |Next(s, l).threads| == |s.threads| && Next(s, l).threads[t].held == s.threads[t].held
    ensures Next(s, l).threads[t].phase.Idle? <==> s.threads[t].phase.Idle?
    ensures !s.threads[t].phase.Idle? ==> Next(s, l).threads[t].phase.n == s.threads[t].phase.n
  {
  }

  /** One look at the counter: what fits is taken, exactly; otherwise the caller gives up or sleeps. */
  lemma LookTakesExactly(s: State, t: nat, n: int, cancelled: bool, bound: int)
    requires Inv(s, bound) && t < |s.threads| && 0 < n <= MAX_INT64 - bound
    ensures var s' := Attempt(s, t, n, cancelled);
            && |s'.threads| == |s.threads|
            && if s.used + n <= s.limit
               then s'.used == s.used + n && s'.threads[t] == Thread(s.threads[t].held + n, Idle)
               else s'.used == s.used && s'.threads[t] == Thread(s.threads[t].held, if cancelled then Idle else Asleep(n))
  {
  }

  /** Step `m` is a cancelled look of thread `t`. */
  predicate Cancelled(l: Label, t: nat) { By(l, t) && (l.Acquire? || l.Recheck?) && l.cancelled }

  /** While a thread waits for `n` permits it has got nothing; afterwards it has `n` more, or has given up. */
  predicate Progress(before: Thread, now: Thread, n: int, gaveUp: bool) {
    if !now.phase.Idle? then now.phase.n == n && now.held == before.held
    else now.held == before.held + n || (now.held == before.held && gaveUp)
  }

  lemma ProgressStep(s: State, l: Label, bound: int, t: nat, n: int, before: Thread, gaveUp: bool)
    requires Inv(s, bound) && Enabled(s, l) && t < |s.threads| && 0 < n <= MAX_INT64 - bound
    requires By(l, t) ==> l.Recheck?
    requires Progress(before, s.threads[t], n, gaveUp)
    ensures t < |Next(s, l).threads| && Progress(before, Next(s, l).threads[t], n, gaveUp || Cancelled(l, t))
  {
    if By(l, t) {
      LookTakesExactly(s, t, n, l.cancelled, bound);
    } else {
      OthersKeep(s, l, t);
    }
  }

  predicate GaveUp(labels: seq<Label>, t: nat, i: nat, k: nat)
    requires k <= |labels|
  {
    exists m :: i <= m < k && Cancelled(labels[m], t)
  }

  /** What a call of Acquire for `n > 0` permits comes to: while it waits it still wants `n` and has got nothing; when it
      is over the thread has `n` permits more, or a cancelled look has given up. */
  lemma {:induction false} AcquireGetsWhatItAsks(states: seq<State>, labels: seq<Label>, bound: int, t: nat, n: int, cancelled: bool, i: nat, k: nat)
    requires BoundedRun(states, labels, bound) && i < k <= |labels| && labels[i] == Acquire(t, n, cancelled) && 0 < n
    requires forall m :: i < m < k ==> By(labels[m], t) ==> labels[m].Recheck?
    ensures t < |states[i].threads| && t < |states[k].threads|
    ensures Progress(states[i].threads[t], states[k].threads[t], n, GaveUp(labels, t, i, k))
    decreases k
  {
    assert Enabled(states[i], labels[i]) && states[i + 1] == Next(states[i], labels[i]) && WithinBound(states[i], labels[i], bound);
    if k == i + 1 {
      RunKeepsInv(states, labels, bound, i);
      LookTakesExactly(states[i], t, n, cancelled, bound);
      assert cancelled ==> Cancelled(labels[i], t);
    } else {
      AcquireGetsWhatItAsks(states, labels, bound, t, n, cancelled, i, k - 1);
      RunKeepsInv(states, labels, bound, k - 1);
      ProgressStep(states[k - 1], labels[k - 1], bound, t, n, states[i].threads[t], GaveUp(labels, t, i, k - 1));
    }
  }

  /** The calls that do not wait: TryAcquire takes `n` permits exactly when they fit, and Release gives back `n`. */
  lemma CallsChangeExactly(states: seq<State>, labels: seq<Label>, bound: int, i: nat)
    requires BoundedRun(states, labels, bound) && i < |labels| && (labels[i].TryAcquire? || labels[i].Release?)
    ensures var s, s', l := states[i], states[i + 1], labels[i];
            && l.t < |s.threads| == |s'.threads| && s'.limit == s.limit
            && (l.TryAcquire? && 0 < l.n && s.used + l.n <= s.limit ==>
                  s'.used == s.used + l.n && s'.threads[l.t].held == s.threads[l.t].held + l.n)
            && (l.TryAcquire? && (l.n <= 0 || s.limit < s.used + l.n) ==> s' == s)
            && (l.Release? && 0 < l.n <= s.threads[l.t].held ==>
                  s'.used == s.used - l.n && s'.threads[l.t].held == s.threads[l.t].held - l.n)
  {
    assert Enabled(states[i], labels[i]) && states[i + 1] == Next(states[i], labels[i]) && WithinBound(states[i], labels[i], bound);
    PermitsConserved(states, labels, bound, i);
    RunKeepsInv(states, labels, bound, i);
  }

  /** Without the bound on requests the promise fails: the sum wraps below zero and a request far over
      the limit is granted. */
  lemma HugeRequestIsGranted() returns (states: seq<State>, labels: seq<Label>)
    ensures IsRun(states, labels)
    ensures var s := states[|labels|]; s.used != Sum(s.threads) && s.limit < Sum(s.threads)
  {
    var s0 := State(0, 2, [Thread(0, Idle), Thread(0, Idle)]);
    labels := [TryAcquire(0, 1), TryAcquire(1, MAX_INT64)];
    var s1 := Next(s0, labels[0]);
    var s2 := Next(s1, labels[1]);
    states := [s0, s1, s2];
    SumZero(s0.threads);
    SumUpdate(s0.threads, 0, Thread(1, Idle));
    SumUpdate(s1.threads, 1, Thread(MAX_INT64, Idle));
  }

  // ---------------------------------------------------------------- exactly when permits are conserved

  /** A run with limits up to `limit` and requests up to `request`, in which holders release what they hold. */
  ghost predicate SizedRun(states: seq<State>, labels: seq<Label>, limit: int, request: int) {
    && IsRun(states, labels) && states[0].limit <= limit
    && forall i :: 0 <= i < |labels| ==> Sized(states[i], labels[i], limit, request)
  }

  predicate Sized(s: State, l: Label, limit: int, request: int) {
    match l
    case Acquire(_, n, _) => n <= request
    case TryAcquire(_, n) => n <= request
    case SetLimit(n) => n <= limit
    case Release(t, n) => t < |s.threads| && n <= s.threads[t].held
    case _ => true
  }

  ghost predicate Conserves(limit: int, request: int) {
    forall states: seq<State>, labels: seq<Label> :: SizedRun(states, labels, limit, request) ==>
      states[|labels|].used == Sum(states[|labels|].threads)
  }

  /** One thread takes `n` permits one by one. */
  lemma {:induction false} FillRun(limit: int, request: int, n: nat) returns (states: seq<State>, labels: seq<Label>)
    requires n <= limit <= MAX_INT64 && 1 <= limit && 1 <= request
    ensures SizedRun(states, labels, limit, request) && states[|labels|] == State(n, limit, [Thread(n, Idle)])
    decreases n
  {
    if n == 0 {
      states, labels := [State(0, limit, [Thread(0, Idle)])], [];
    } else {
      states, labels := FillRun(limit, request, n - 1);
      var s := Next(states[|labels|], TryAcquire(0, 1));
      assert s.threads == [Thread(n, Idle)];
      states, labels := states + [s], labels + [TryAcquire(0, 1)];
    }
  }

  /** Over all runs with limits up to `limit` and requests up to `request`, the counter is always the sum of the
      outstanding permits if and only if the two together fit into 64 bits. */
  lemma ConservedIffNoWrap(limit: int, request: int)
    requires 1 <= limit <= MAX_INT64 && 1 <= request <= MAX_INT64
    ensures Conserves(limit, request) <==> limit + request <= MAX_INT64
  {
    if limit + request <= MAX_INT64 {
      forall states: seq<State>, labels: seq<Label> | SizedRun(states, labels, limit, request)
        ensures states[|labels|].used == Sum(states[|labels|].threads)
      {
        assert BoundedRun(states, labels, limit);
        RunKeepsInv(states, labels, limit, |labels|);
      }
    } else {
      var states, labels := FillRun(limit, request, limit);
      var s := states[|labels|];
      var s' := Next(s, TryAcquire(0, request));
      SumUpdate(s.threads, 0, s'.threads[0]);
      assert s.threads[..0] == [];
      assert SizedRun(states + [s'], labels + [TryAcquire(0, request)], limit, request);
      assert (states + [s'])[|labels + [TryAcquire(0, request)]|] == s' && s'.used != Sum(s'.threads);
    }
  }

  // ---------------------------------------------------------------- the object

  /** The semaphore's methods; `threads` only records who waits and who holds what. */
  class Semaphore {
    var used: int
    var limit: int
    ghost var threads: seq<Thread>

    ghost function View(): State
      reads this
    {
      State(used, limit, threads)
    }

    /** `NewAdjustableSemaphore`, for a limit its guard accepts. */
    constructor (limit: int, ghost users: nat)
      requires 0 < limit <= MAX_INT64
      ensures Initial(View()) && this.limit == limit && |threads| == users
    {
      this.used, this.limit := 0, limit;
      this.threads := seq(users, _ => Thread(0, Idle));
    }

    method TryAcquirePermits(ghost t: nat, n: int) returns (ok: bool)
      requires Enabled(View(), TryAcquire(t, n))
      modifies this
      ensures View() == Next(old(View()), TryAcquire(t, n))
      ensures ok <==> 0 < n && Wrap(old(used) + n) <= old(limit)
      ensures limit == old(limit) && used == if ok then Wrap(old(used) + n) else old(used)
    {
      if n <= 0 {
        return false;
      }
      if Wrap(used + n) > limit {
        return false;
      }
      used := Wrap(used + n);
      threads := threads[t := Thread(threads[t].held + n, Idle)];
      ok := true;
    }

    method ChangeLimit(newLimit: int) returns (ok: bool)
      requires Enabled(View(), SetLimit(newLimit))
      modifies this
      ensures View() == Next(old(View()), SetLimit(newLimit))
      ensures ok <==> 0 < newLimit
      ensures used == old(used) && limit == if ok then newLimit else old(limit)
    {
      if newLimit <= 0 {
        return false;
      }
      limit := newLimit;
      threads := WakeAll(threads);
      ok := true;
    }

    /** False stands for a panic: it comes exactly for counts that are not positive or exceed the permits in use,
        so a holder releasing what it holds never sees it. */
    method ReleasePermits(ghost t: nat, n: int) returns (ok: bool)
      requires Enabled(View(), Release(t, n))
      modifies this
      ensures View() == Next(old(View()), Release(t, n))
      ensures ok <==> 0 < n <= old(used)
      ensures limit == old(limit) && used == if ok then old(used) - n else old(used)
      ensures forall bound :: old(Inv(View(), bound)) && 0 < n <= old(threads[t].held) ==> ok
    {
      forall bound | Inv(View(), bound) ensures threads[t].held <= used {
        assert forall i :: 0 <= i < |threads| ==> ThreadOk(View(), threads[i], bound);
        SumAtLeast(threads, t);
      }
      if n <= 0 {
        return false;
      }
      if used < n {
        return false;
      } else {
        used := used - n;
        threads := WakeAll(threads[t := threads[t].(held := threads[t].held - n)]);
        ok := true;
      }
    }
  }

  /** `NewAdjustableSemaphore`: an error, here null, exactly for limits that are not positive. */
  method NewAdjustableSemaphore(limit: int, ghost users: nat) returns (s: Semaphore?)
    requires limit <= MAX_INT64
    ensures s == null <==> limit <= 0
    ensures s != null ==> fresh(s) && Initial(s.View()) && s.limit == limit
  {
    if limit <= 0 {
      return null;
    }
    s := new Semaphore(limit, users);
  }
}
