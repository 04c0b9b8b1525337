/** The per-sandbox connection limiter: requests take and give back slots on shared atomic counters, with
    the load and the compare-and-swap of each retry loop as separate steps. */
module ConnectionLimiter {

  type Key = string

  /** A request on its way through the proxy handler.  `Loaded` and `Leaving` hold the value they read;
      `Open` holds a slot, which the deferred release gives back. */
  datatype Phase = Start | Ready | Loaded(current: int) | Refused(count: int) | Open(count: int)
                 | Releasing | Leaving(current: int) | Closed(released: bool)

  datatype Request = Request(key: Key, limit: int, phase: Phase)

  datatype State = State(counters: map<Key, int>, requests: seq<Request>)

  datatype Label =
    | Arrive(key: Key, limit: int)
    | FindCounter(r: nat)
    | Load(r: nat)
    | Swap(r: nat)
    | Finish(r: nat)
    | LoadToRelease(r: nat)
    | SwapToRelease(r: nat)

  predicate In(s: State, r: nat) { r < |s.requests| }

  predicate Enabled(s: State, l: Label) {
    match l
    case Arrive(_, _) => true
    case FindCounter(r) => In(s, r) && s.requests[r].phase.Start?
    case Load(r) => In(s, r) && s.requests[r].phase.Ready? && s.requests[r].key in s.counters
    case Swap(r) => In(s, r) && s.requests[r].phase.Loaded? && s.requests[r].key in s.counters
    case Finish(r) => In(s, r) && s.requests[r].phase.Open?
    case LoadToRelease(r) => In(s, r) && s.requests[r].phase.Releasing?
    case SwapToRelease(r) => In(s, r) && s.requests[r].phase.Leaving? && s.requests[r].key in s.counters
  }

  function Move(s: State, r: nat, phase: Phase): State
    requires In(s, r)
  {
    s.(requests := s.requests[r := s.requests[r].(phase := phase)])
  }

  /** A limit below zero means none. */
  predicate AtLimit(limit: int, current: int) { 0 <= limit <= current }

  function Next(s: State, l: Label): State
    requires Enabled(s, l)
  {
    match l
    case Arrive(key, limit) => s.(requests := s.requests + [Request(key, limit, Start)])
    case FindCounter(r) =>
      var key := s.requests[r].key;
      Move(s, r, Ready).(counters := if key in s.counters then s.counters else s.counters[key := 0])
    case Load(r) =>
      var current := s.counters[s.requests[r].key];
      Move(s, r, if AtLimit(s.requests[r].limit, current) then Refused(current) else Loaded(current))
    case Swap(r) =>
      var key, current := s.requests[r].key, s.requests[r].phase.current;
      if s.counters[key] == current then Move(s, r, Open(current + 1)).(counters := s.counters[key := current + 1])
      else Move(s, r, Ready)
    case Finish(r) => Move(s, r, Releasing)
    case LoadToRelease(r) =>
      var key := s.requests[r].key;
      if key !in s.counters || s.counters[key] <= 0 then Move(s, r, Closed(false)) else Move(s, r, Leaving(s.counters[key]))
    case SwapToRelease(r) =>
      var key, current := s.requests[r].key, s.requests[r].phase.current;
      if s.counters[key] == current then Move(s, r, Closed(true)).(counters := s.counters[key := current - 1])
      else Move(s, r, Releasing)
  }

  const EMPTY := State(map[], [])

  ghost predicate IsRun(states: seq<State>, labels: seq<Label>) {
    && |states| == |labels| + 1 && states[0] == EMPTY
    && forall i :: 0 <= i < |labels| ==> Enabled(states[i], labels[i]) && states[i + 1] == Next(states[i], labels[i])
  }

  // ---------------------------------------------------------------- open slots

  predicate HoldsSlot(q: Request, key: Key) {
    q.key == key && (q.phase.Open? || q.phase.Releasing? || q.phase.Leaving?)
  }

  function Slots(qs: seq<Request>, key: Key): nat {
    if qs == [] then 0 else Slots(qs[..|qs| - 1], key) + if HoldsSlot(qs[|qs| - 1], key) then 1 else 0
  }

  lemma {:induction false} SlotsUpdate(qs: seq<Request>, r: nat, q: Request, key: Key)
    requires r < |qs|
    ensures Slots(qs[r := q], key) + (if HoldsSlot(qs[r], key) then 1 else 0) == Slots(qs, key) + (if HoldsSlot(q, key) then 1 else 0)
  {
    var n := |qs| - 1;
    if r < n {
      assert qs[r := q][..n] == qs[..n][r := q];
      SlotsUpdate(qs[..n], r, q, key);
    } else {
      assert qs[r := q][..n] == qs[..n];
    }
  }

  lemma {:induction false} HolderCounts(qs: seq<Request>, r: nat, key: Key)
    requires r < |qs| && HoldsSlot(qs[r], key)
    ensures 0 < Slots(qs, key)
  {
    if r < |qs| - 1 { HolderCounts(qs[..|qs| - 1], r, key); }
  }

  // ---------------------------------------------------------------- the invariant

  function Value(s: State, key: Key): int { if key in s.counters then s.counters[key] else 0 }

  predicate RequestOk(s: State, q: Request) {
    && (!q.phase.Start? ==> q.key in s.counters)
    && (q.phase.Loaded? ==> !AtLimit(q.limit, q.phase.current))
    && (q.phase.Refused? ==> AtLimit(q.limit, q.phase.count))
    && (q.phase.Closed? ==> q.phase.released)
  }

  ghost predicate Inv(s: State) {
    && (forall key :: Value(s, key) == Slots(s.requests, key))
    && forall r :: 0 <= r < |s.requests| ==> RequestOk(s, s.requests[r])
  }

  function Mover(l: Label): nat
    requires !l.Arrive?
  {
    l.r
  }

  lemma StepCounts(s: State, l: Label, key: Key)
    requires Inv(s) && Enabled(s, l)
    ensures Value(Next(s, l), key) == Slots(Next(s, l).requests, key)
  {
    assert Value(s, key) == Slots(s.requests, key);
    var s' := Next(s, l);
    if l.Arrive? {
      assert s'.requests[..|s.requests|] == s.requests;
    } else {
      var r := Mover(l);
      assert RequestOk(s, s.requests[r]);
      SlotsUpdate(s.requests, r, s'.requests[r], key);
      assert s'.requests == s.requests[r := s'.requests[r]];
      if l.LoadToRelease? { HolderCounts(s.requests, r, s.requests[r].key); assert Value(s, s.requests[r].key) == Slots(s.requests, s.requests[r].key); }
    }
  }

  lemma MoverOk(s: State, l: Label)
    requires Inv(s) && Enabled(s, l) && !l.Arrive?
    ensures RequestOk(Next(s, l), Next(s, l).requests[Mover(l)])
  {
    var q := s.requests[Mover(l)];
    assert RequestOk(s, q);
    if l.LoadToRelease? {
      HolderCounts(s.requests, l.r, q.key);
      assert Value(s, q.key) == Slots(s.requests, q.key);
    }
  }

  lemma StepKeepsInv(s: State, l: Label)
    requires Inv(s) && Enabled(s, l)
    ensures Inv(Next(s, l))
  {
    var s' := Next(s, l);
    forall key ensures Value(s', key) == Slots(s'.requests, key) {
      StepCounts(s, l, key);
    }
    forall r | 0 <= r < |s'.requests| ensures RequestOk(s', s'.requests[r]) {
      if !l.Arrive? && r == Mover(l) {
        MoverOk(s, l);
      } else if r < |s.requests| {
        assert RequestOk(s, s.requests[r]);
      }
    }
  }

  lemma {:induction false} RunKeepsInv(states: seq<State>, labels: seq<Label>, k: nat)
    requires IsRun(states, labels) && k <= |labels|
    ensures Inv(states[k])
  {
    if k == 0 {
    } else {
      RunKeepsInv(states, labels, k - 1);
      StepKeepsInv(states[k - 1], labels[k - 1]);
    }
  }

  // ---------------------------------------------------------------- what the limiter promises

  /** In every reachable state each count is the number of open slots of its sandbox, so it is never negative, and
      every finished release did give its slot back. */
  lemma CountIsOpenSlots(states: seq<State>, labels: seq<Label>, k: nat, key: Key)
    requires IsRun(states, labels) && k <= |labels|
    ensures Value(states[k], key) == Slots(states[k].requests, key) >= 0
    ensures forall r :: 0 <= r < |states[k].requests| && states[k].requests[r].phase.Closed? ==> states[k].requests[r].phase.released
  {
    RunKeepsInv(states, labels, k);
    forall r | 0 <= r < |states[k].requests| && states[k].requests[r].phase.Closed? ensures states[k].requests[r].phase.released {
      assert RequestOk(states[k], states[k].requests[r]);
    }
  }

  /** The sandbox and limit of each request so far, in order. */
  function Arrivals(labels: seq<Label>): seq<(Key, int)> {
    if labels == [] then []
    else
      var l := labels[|labels| - 1];
      Arrivals(labels[..|labels| - 1]) + if l.Arrive? then [(l.key, l.limit)] else []
  }

  lemma {:induction false} RequestsArrived(states: seq<State>, labels: seq<Label>, k: nat)
    requires IsRun(states, labels) && k <= |labels|
    ensures |states[k].requests| == |Arrivals(labels[..k])|
    ensures forall r :: 0 <= r < |states[k].requests| ==> (states[k].requests[r].key, states[k].requests[r].limit) == Arrivals(labels[..k])[r]
  {
    if k == 0 {
    } else {
      RequestsArrived(states, labels, k - 1);
      assert Enabled(states[k - 1], labels[k - 1]) && states[k] == Next(states[k - 1], labels[k - 1]);
      assert labels[..k][..k - 1] == labels[..k - 1];
    }
  }

  /** A request is refused exactly when, at its load, as many slots of its sandbox are open as its limit allows; a
      limit below zero never refuses.  It is told the number of open slots. */
  lemma RefusedIffFull(states: seq<State>, labels: seq<Label>, i: nat, r: nat)
    requires IsRun(states, labels) && i < |labels| && labels[i] == Load(r)
    ensures r < |Arrivals(labels[..i])| && r < |states[i + 1].requests|
    ensures var (key, limit) := Arrivals(labels[..i])[r]; var open := Slots(states[i].requests, key);
            states[i + 1].requests[r].phase == if 0 <= limit <= open then Refused(open) else Loaded(open)
  {
    RunKeepsInv(states, labels, i);
    RequestsArrived(states, labels, i);
    assert Enabled(states[i], labels[i]) && states[i + 1] == Next(states[i], labels[i]);
    var key := states[i].requests[r].key;
    assert Value(states[i], key) == Slots(states[i].requests, key);
  }

  /** A request is let in exactly when the count is still the one it loaded, and is told the new number of open slots. */
  lemma AdmittedIffUnchanged(states: seq<State>, labels: seq<Label>, i: nat, r: nat)
    requires IsRun(states, labels) && i < |labels| && labels[i] == Swap(r)
    ensures r < |Arrivals(labels[..i])| && r < |states[i].requests| == |states[i + 1].requests| && states[i].requests[r].phase.Loaded?
    ensures var key := Arrivals(labels[..i])[r].0; var open := Slots(states[i].requests, key);
            states[i + 1].requests[r].phase == if states[i].requests[r].phase.current == open then Open(open + 1) else Ready
    ensures states[i + 1].requests[r].phase.Open? ==>
              states[i + 1].requests[r].phase.count == Slots(states[i + 1].requests, Arrivals(labels[..i])[r].0)
  {
    RunKeepsInv(states, labels, i);
    RunKeepsInv(states, labels, i + 1);
    RequestsArrived(states, labels, i);
    assert Enabled(states[i], labels[i]) && states[i + 1] == Next(states[i], labels[i]);
    var key := states[i].requests[r].key;
    assert Value(states[i], key) == Slots(states[i].requests, key);
    assert Value(states[i + 1], key) == Slots(states[i + 1].requests, key);
  }

  /** A count grows only by one, by a request whose own limit still allows the new value. */
  lemma GrowsWithinLimit(s: State, l: Label, key: Key)
    requires Inv(s) && Enabled(s, l) && Value(s, key) < Value(Next(s, l), key)
    ensures l.Swap? && s.requests[l.r].key == key && Value(Next(s, l), key) == Value(s, key) + 1
    ensures 0 <= s.requests[l.r].limit ==> Value(Next(s, l), key) <= s.requests[l.r].limit
  {
    if l.Swap? { assert RequestOk(s, s.requests[l.r]); }
    if l.SwapToRelease? { assert RequestOk(s, s.requests[l.r]); }
  }

  /** Under a fixed limit the count never exceeds it. */
  lemma {:induction false} NeverAboveLimit(states: seq<State>, labels: seq<Label>, k: nat, key: Key, limit: nat)
    requires IsRun(states, labels) && k <= |labels|
    requires forall r :: 0 <= r < |states[k].requests| && states[k].requests[r].key == key ==> 0 <= states[k].requests[r].limit <= limit
    ensures Slots(states[k].requests, key) == Value(states[k], key) <= limit
  {
    RunKeepsInv(states, labels, k);
    if k == 0 {
    } else {
      var s, l := states[k - 1], labels[k - 1];
      RunKeepsInv(states, labels, k - 1);
      assert Enabled(s, l) && states[k] == Next(s, l);
      forall r | 0 <= r < |s.requests| && s.requests[r].key == key ensures 0 <= s.requests[r].limit <= limit {
        assert states[k].requests[r].key == key && states[k].requests[r].limit == s.requests[r].limit;
      }
      NeverAboveLimit(states, labels, k - 1, key, limit);
      if Value(s, key) < Value(states[k], key) { GrowsWithinLimit(s, l, key); }
    }
  }

  /** The step is a compare-and-swap on the key that succeeds. */
  predicate Succeeds(s: State, l: Label, key: Key)
    requires Enabled(s, l)
  {
    && (l.Swap? || l.SwapToRelease?) && s.requests[l.r].key == key
    && s.counters[key] == s.requests[l.r].phase.current
  }

  lemma {:induction false} UnchangedWithoutSuccess(states: seq<State>, labels: seq<Label>, i: nat, k: nat, key: Key)
    requires IsRun(states, labels) && i <= k <= |labels| && key in states[i].counters
    requires forall j :: i <= j < k ==> Enabled(states[j], labels[j]) && !Succeeds(states[j], labels[j], key)
    ensures key in states[k].counters && states[k].counters[key] == states[i].counters[key]
    decreases k
  {
    if i == k {
    } else {
      UnchangedWithoutSuccess(states, labels, i, k - 1, key);
      assert states[k] == Next(states[k - 1], labels[k - 1]);
    }
  }

  lemma {:induction false} KeepsLoaded(states: seq<State>, labels: seq<Label>, i: nat, k: nat, r: nat)
    requires IsRun(states, labels) && i <= k <= |labels| && In(states[i], r)
    requires forall j :: i <= j < k ==> labels[j].Arrive? || Mover(labels[j]) != r
    ensures In(states[k], r) && states[k].requests[r] == states[i].requests[r]
    decreases k
  {
    if i == k {
    } else {
      KeepsLoaded(states, labels, i, k - 1, r);
      assert states[k] == Next(states[k - 1], labels[k - 1]);
    }
  }

  /** A request retries only because another one got through: between its load and its failed swap some
      compare-and-swap on the same counter succeeded. */
  lemma RetryMeansProgress(states: seq<State>, labels: seq<Label>, i: nat, k: nat, r: nat) returns (j: nat)
    requires IsRun(states, labels) && i < k < |labels| && labels[i] == Load(r) && labels[k] == Swap(r)
    requires forall j :: i < j < k ==> labels[j].Arrive? || Mover(labels[j]) != r
    requires states[k + 1].requests[r].phase.Ready?
    ensures i < j < k && Enabled(states[j], labels[j]) && Succeeds(states[j], labels[j], states[i].requests[r].key)
  {
    var key := states[i].requests[r].key;
    assert Enabled(states[i], labels[i]) && states[i + 1] == Next(states[i], labels[i]);
    assert Enabled(states[k], labels[k]) && states[k + 1] == Next(states[k], labels[k]);
    KeepsLoaded(states, labels, i + 1, k, r);
    if forall j :: i + 1 <= j < k ==> Enabled(states[j], labels[j]) && !Succeeds(states[j], labels[j], key) {
      UnchangedWithoutSuccess(states, labels, i + 1, k, key);
      assert false;
    }
    j :| i + 1 <= j < k && !(Enabled(states[j], labels[j]) && !Succeeds(states[j], labels[j], key));
  }
}
