/** The sandbox catalog: any number of nodes share one Redis and keep what they read or wrote for half a
    second.  Every contact with Redis or the local cache is one step, so a value can be overtaken
    between the two. */
module SandboxCatalog {
  import opened Wrappers

  const LOCAL_TTL := 500  // milliseconds

  type Id = string

  datatype Info = Info(executionId: nat, orchestrator: nat)

  /** A Redis value; without an expiry it stays until deleted. */
  datatype Record = Record(info: Info, expiresAt: Option<nat>)

  /** A local entry.  `contact` is the time at which Redis was read or written for it. */
  datatype Item = Item(info: Info, expiresAt: nat, contact: nat)

  datatype Call = Get(useCache: bool) | Store(info: Info, ttl: nat, useCache: bool) | Delete(executionId: nat)

  /** `Got` and `Written` have heard from Redis; `Matched` has seen its execution there. */
  datatype Phase = Begun | Missed | Got(info: Info, contact: nat) | Written(contact: nat) | Matched | Removed
                 | Finished(reply: Option<Info>, contact: nat, at: nat)

  datatype Operation = Operation(node: nat, id: Id, call: Call, phase: Phase)

  datatype State = State(now: nat, redis: map<Id, Record>, caches: seq<map<Id, Item>>, ops: seq<Operation>)

  datatype Label =
    | Tick
    | Begin(node: nat, id: Id, call: Call)
    | LocalHit(o: nat)
    | LocalMiss(o: nat)
    | RedisGet(o: nat)
    | Reply(o: nat)
    | RedisSet(o: nat)
    | SetFails(o: nat, applied: bool)
    | Cached(o: nat)
    | Compare(o: nat)
    | RedisDelete(o: nat, applied: bool)
    | LocalDelete(o: nat)
    | Evict(node: nat, id: Id)
    | GiveUp(o: nat)

  predicate Live(s: State, r: Record) { r.expiresAt.None? || s.now <= r.expiresAt.value }

  predicate Holds(s: State, id: Id, info: Info) {
    id in s.redis && Live(s, s.redis[id]) && s.redis[id].info == info
  }

  predicate HasItem(s: State, node: nat, id: Id) {
    node < |s.caches| && id in s.caches[node]
  }

  /** The operation is in the given phase. */
  predicate In(s: State, o: nat, phase: Phase) {
    o < |s.ops| && s.ops[o].node < |s.caches| && s.ops[o].phase == phase
  }

  predicate Enabled(s: State, l: Label) {
    match l
    case Tick => true
    case Begin(node, _, _) => node < |s.caches|
    case LocalHit(o) =>
      In(s, o, Begun) && s.ops[o].call.Get? && s.ops[o].call.useCache && HasItem(s, s.ops[o].node, s.ops[o].id)
      && s.now <= s.caches[s.ops[o].node][s.ops[o].id].expiresAt
    case LocalMiss(o) =>
      In(s, o, Begun) && s.ops[o].call.Get?
      && (s.ops[o].call.useCache && HasItem(s, s.ops[o].node, s.ops[o].id) ==>
            s.caches[s.ops[o].node][s.ops[o].id].expiresAt < s.now)
    case RedisGet(o) => In(s, o, Missed)
    case Reply(o) => o < |s.ops| && s.ops[o].node < |s.caches| && s.ops[o].call.Get? && s.ops[o].phase.Got?
    case RedisSet(o) => In(s, o, Begun) && s.ops[o].call.Store?
    case SetFails(o, _) => In(s, o, Begun) && s.ops[o].call.Store?
    case Cached(o) => o < |s.ops| && s.ops[o].node < |s.caches| && s.ops[o].call.Store? && s.ops[o].phase.Written?
    case Compare(o) => In(s, o, Begun) && s.ops[o].call.Delete?
    case RedisDelete(o, _) => In(s, o, Matched)
    case LocalDelete(o) => In(s, o, Removed)
    case Evict(node, id) => HasItem(s, node, id)
    case GiveUp(o) => o < |s.ops| && !s.ops[o].phase.Finished?
  }

  function Move(s: State, o: nat, phase: Phase): State
    requires o < |s.ops|
  {
    s.(ops := s.ops[o := s.ops[o].(phase := phase)])
  }

  function Put(s: State, node: nat, id: Id, item: Item): State
    requires node < |s.caches|
  {
    s.(caches := s.caches[node := s.caches[node][id := item]])
  }

  function Forget(s: State, node: nat, id: Id): State
    requires node < |s.caches|
  {
    s.(caches := s.caches[node := s.caches[node] - {id}])
  }

  function Expiry(now: nat, ttl: nat): Option<nat> {
    if ttl == 0 then None else Some(now + ttl)
  }

  function NoReply(s: State): Phase { Finished(None, s.now, s.now) }

  function Next(s: State, l: Label): State
    requires Enabled(s, l)
  {
    match l
    case Tick => s.(now := s.now + 1)
    case Begin(node, id, call) => s.(ops := s.ops + [Operation(node, id, call, Begun)])
    case LocalHit(o) =>
      var item := s.caches[s.ops[o].node][s.ops[o].id];
      Move(s, o, Finished(Some(item.info), item.contact, s.now))
    case LocalMiss(o) => Move(s, o, Missed)
    case RedisGet(o) =>
      var id := s.ops[o].id;
      if id in s.redis && Live(s, s.redis[id]) then Move(s, o, Got(s.redis[id].info, s.now)) else Move(s, o, NoReply(s))
    case Reply(o) =>
      var op := s.ops[o];
      var done := Move(s, o, Finished(Some(op.phase.info), op.phase.contact, s.now));
      if op.call.useCache then Put(done, op.node, op.id, Item(op.phase.info, s.now + LOCAL_TTL, op.phase.contact)) else done
    case RedisSet(o) =>
      var op := s.ops[o];
      Move(s, o, Written(s.now)).(redis := s.redis[op.id := Record(op.call.info, Expiry(s.now, op.call.ttl))])
    case SetFails(o, applied) =>
      var op := s.ops[o];
      var done := Move(s, o, NoReply(s));
      if applied then done.(redis := s.redis[op.id := Record(op.call.info, Expiry(s.now, op.call.ttl))]) else done
    case Cached(o) =>
      var op := s.ops[o];
      var done := Move(s, o, NoReply(s));
      if op.call.useCache then Put(done, op.node, op.id, Item(op.call.info, s.now + LOCAL_TTL, op.phase.contact)) else done
    case Compare(o) =>
      var op := s.ops[o];
      if op.id in s.redis && Live(s, s.redis[op.id]) && s.redis[op.id].info.executionId == op.call.executionId
      then Move(s, o, Matched) else Move(s, o, NoReply(s))
    case RedisDelete(o, applied) => Move(s, o, Removed).(redis := if applied then s.redis - {s.ops[o].id} else s.redis)
    case LocalDelete(o) => Forget(Move(s, o, NoReply(s)), s.ops[o].node, s.ops[o].id)
    case Evict(node, id) => Forget(s, node, id)
    case GiveUp(o) => Move(s, o, NoReply(s))
  }

  predicate Initial(s: State) {
    s.ops == [] && forall n :: 0 <= n < |s.caches| ==> s.caches[n] == map[]
  }

  ghost predicate IsRun(states: seq<State>, labels: seq<Label>) {
    && |states| == |labels| + 1 && Initial(states[0])
    && forall i :: 0 <= i < |labels| ==> Enabled(states[i], labels[i]) && states[i + 1] == Next(states[i], labels[i])
  }

  /** No operation sits on an answer from Redis for more than `delay`. */
  predicate Prompt(s: State, delay: nat) {
    forall o :: 0 <= o < |s.ops| ==>
      && (s.ops[o].phase.Got? ==> s.now <= s.ops[o].phase.contact + delay)
      && (s.ops[o].phase.Written? ==> s.now <= s.ops[o].phase.contact + delay)
  }

  ghost predicate PromptRun(states: seq<State>, labels: seq<Label>, delay: nat) {
    IsRun(states, labels) && forall i :: 0 <= i < |states| ==> Prompt(states[i], delay)
  }

  // ---------------------------------------------------------------- the invariant

  /** Redis held the value for the sandbox at time `t`, in one of the first `k` steps of the run. */
  ghost predicate HeldAt(states: seq<State>, k: nat, id: Id, info: Info, t: nat)
    requires k < |states|
  {
    exists j :: 0 <= j <= k && states[j].now == t && Holds(states[j], id, info)
  }

  lemma HeldStays(states: seq<State>, i: nat, k: nat, id: Id, info: Info, t: nat)
    requires i <= k < |states| && HeldAt(states, i, id, info, t)
    ensures HeldAt(states, k, id, info, t)
  {
  }

  ghost predicate ItemOk(states: seq<State>, k: nat, delay: nat, id: Id, item: Item)
    requires k < |states|
  {
    && HeldAt(states, k, id, item.info, item.contact)
    && item.contact <= states[k].now && item.expiresAt <= item.contact + delay + LOCAL_TTL
  }

  ghost predicate OpOk(states: seq<State>, k: nat, delay: nat, op: Operation)
    requires k < |states|
  {
    match op.phase
    case Got(info, contact) => HeldAt(states, k, op.id, info, contact) && contact <= states[k].now
    case Written(contact) => op.call.Store? && HeldAt(states, k, op.id, op.call.info, contact) && contact <= states[k].now
    case Finished(reply, contact, at) =>
      && contact <= at <= contact + delay + LOCAL_TTL
      && (reply.Some? ==> op.call.Get? && HeldAt(states, k, op.id, reply.value, contact))
    case _ => true
  }

  ghost predicate Inv(states: seq<State>, k: nat, delay: nat)
    requires k < |states|
  {
    && (forall n: nat, id :: HasItem(states[k], n, id) ==> ItemOk(states, k, delay, id, states[k].caches[n][id]))
    && (forall o :: 0 <= o < |states[k].ops| ==> OpOk(states, k, delay, states[k].ops[o]))
  }

  lemma ItemStays(states: seq<State>, k: nat, delay: nat, id: Id, item: Item)
    requires 0 < k < |states| && ItemOk(states, k - 1, delay, id, item) && states[k - 1].now <= states[k].now
    ensures ItemOk(states, k, delay, id, item)
  {
    HeldStays(states, k - 1, k, id, item.info, item.contact);
  }

  lemma OpStays(states: seq<State>, k: nat, delay: nat, op: Operation)
    requires 0 < k < |states| && OpOk(states, k - 1, delay, op) && states[k - 1].now <= states[k].now
    ensures OpOk(states, k, delay, op)
  {
    match op.phase
    case Got(info, contact) => HeldStays(states, k - 1, k, op.id, info, contact);
    case Written(contact) => HeldStays(states, k - 1, k, op.id, op.call.info, contact);
    case Finished(reply, contact, _) => if reply.Some? { HeldStays(states, k - 1, k, op.id, reply.value, contact); }
    case _ =>
  }

  predicate Moves(l: Label, o: nat) {
    match l
    case Tick => false
    case Begin(_, _, _) => false
    case Evict(_, _) => false
    case _ => l.o == o
  }

  /** The operation that takes the step is accounted for afterwards. */
  lemma MoverOk(states: seq<State>, labels: seq<Label>, k: nat, delay: nat, o: nat)
    requires PromptRun(states, labels, delay) && 0 < k <= |labels| && Moves(labels[k - 1], o)
    requires Inv(states, k - 1, delay) && o < |states[k].ops|
    ensures OpOk(states, k, delay, states[k].ops[o])
  {
    var s, l := states[k - 1], labels[k - 1];
    assert Enabled(s, l) && states[k] == Next(s, l) && Prompt(s, delay);
    assert OpOk(states, k - 1, delay, s.ops[o]);
    match l
    case LocalHit(_) =>
      var item := s.caches[s.ops[o].node][s.ops[o].id];
      assert HasItem(s, s.ops[o].node, s.ops[o].id);
      HeldStays(states, k - 1, k, s.ops[o].id, item.info, item.contact);
    case RedisGet(_) =>
      if states[k].ops[o].phase.Got? { assert Holds(states[k], s.ops[o].id, states[k].ops[o].phase.info); }
    case Reply(_) => HeldStays(states, k - 1, k, s.ops[o].id, s.ops[o].phase.info, s.ops[o].phase.contact);
    case RedisSet(_) => assert Holds(states[k], s.ops[o].id, s.ops[o].call.info);
    case _ =>
  }

  lemma StepKeepsOps(states: seq<State>, labels: seq<Label>, k: nat, delay: nat)
    requires PromptRun(states, labels, delay) && 0 < k <= |labels| && Inv(states, k - 1, delay)
    ensures forall o :: 0 <= o < |states[k].ops| ==> OpOk(states, k, delay, states[k].ops[o])
  {
    var s, l := states[k - 1], labels[k - 1];
    assert Enabled(s, l) && states[k] == Next(s, l);
    forall o | 0 <= o < |states[k].ops| ensures OpOk(states, k, delay, states[k].ops[o]) {
      if Moves(l, o) {
        MoverOk(states, labels, k, delay, o);
      } else if o < |s.ops| {
        assert states[k].ops[o] == s.ops[o];
        OpStays(states, k, delay, s.ops[o]);
      }
    }
  }

  /** The entry a step puts into a local cache. */
  lemma NewItemOk(states: seq<State>, labels: seq<Label>, k: nat, delay: nat, item: Item)
    requires PromptRun(states, labels, delay) && 0 < k <= |labels| && Inv(states, k - 1, delay)
    requires labels[k - 1].Reply? || labels[k - 1].Cached?
    requires var op := states[k - 1].ops[labels[k - 1].o]; var s := states[k - 1];
             item == Item(if labels[k - 1].Reply? then op.phase.info else op.call.info, s.now + LOCAL_TTL, op.phase.contact)
    ensures ItemOk(states, k, delay, states[k - 1].ops[labels[k - 1].o].id, item)
  {
    var s, o := states[k - 1], labels[k - 1].o;
    assert Enabled(s, labels[k - 1]) && states[k] == Next(s, labels[k - 1]) && Prompt(s, delay);
    assert OpOk(states, k - 1, delay, s.ops[o]);
    HeldStays(states, k - 1, k, s.ops[o].id, item.info, item.contact);
  }

  /** Where an entry after a step comes from. */
  lemma ItemOrigin(s: State, l: Label, n: nat, id: Id)
    requires Enabled(s, l) && HasItem(Next(s, l), n, id)
    ensures (HasItem(s, n, id) && Next(s, l).caches[n][id] == s.caches[n][id])
         || ((l.Reply? || l.Cached?) && id == s.ops[l.o].id
             && Next(s, l).caches[n][id]
                == Item(if l.Reply? then s.ops[l.o].phase.info else s.ops[l.o].call.info, s.now + LOCAL_TTL, s.ops[l.o].phase.contact))
  {
  }

  lemma StepKeepsItems(states: seq<State>, labels: seq<Label>, k: nat, delay: nat)
    requires PromptRun(states, labels, delay) && 0 < k <= |labels| && Inv(states, k - 1, delay)
    ensures forall n: nat, id :: HasItem(states[k], n, id) ==> ItemOk(states, k, delay, id, states[k].caches[n][id])
  {
    var s, l := states[k - 1], labels[k - 1];
    assert Enabled(s, l) && states[k] == Next(s, l);
    forall n: nat, id | HasItem(states[k], n, id) ensures ItemOk(states, k, delay, id, states[k].caches[n][id]) {
      ItemOrigin(s, l, n, id);
      var item := states[k].caches[n][id];
      if HasItem(s, n, id) && item == s.caches[n][id] {
        ItemStays(states, k, delay, id, item);
      } else {
        NewItemOk(states, labels, k, delay, item);
      }
    }
  }

  lemma {:induction false} RunKeepsInv(states: seq<State>, labels: seq<Label>, delay: nat, k: nat)
    requires PromptRun(states, labels, delay) && k <= |labels|
    ensures Inv(states, k, delay)
  {
    if k == 0 {
    } else {
      RunKeepsInv(states, labels, delay, k - 1);
      StepKeepsOps(states, labels, k, delay);
      StepKeepsItems(states, labels, k, delay);
    }
  }

  // ---------------------------------------------------------------- what the catalog promises

  /** Every value `GetSandbox` returned was held by Redis for that sandbox at some moment at most 500 ms,
      plus the delay between Redis and the local cache, before the return. */
  lemma StalenessIsBounded(states: seq<State>, labels: seq<Label>, delay: nat, k: nat, o: nat) returns (j: nat)
    requires PromptRun(states, labels, delay) && k <= |labels| && o < |states[k].ops|
    requires states[k].ops[o].phase.Finished? && states[k].ops[o].phase.reply.Some?
    ensures j <= k && Holds(states[j], states[k].ops[o].id, states[k].ops[o].phase.reply.value)
    ensures states[j].now <= states[k].ops[o].phase.at <= states[j].now + delay + LOCAL_TTL
  {
    RunKeepsInv(states, labels, delay, k);
    var op := states[k].ops[o];
    assert OpOk(states, k, delay, op);
    j :| 0 <= j <= k && states[j].now == op.phase.contact && Holds(states[j], op.id, op.phase.reply.value);
  }

  /** Once Redis has stopped holding a value, no node returns it after the same time has passed. */
  lemma ForgottenAfterBound(states: seq<State>, labels: seq<Label>, delay: nat, k: nat, o: nat, since: nat, info: Info)
    requires PromptRun(states, labels, delay) && k <= |labels| && o < |states[k].ops|
    requires forall j :: 0 <= j <= k && since <= states[j].now ==> !Holds(states[j], states[k].ops[o].id, info)
    requires states[k].ops[o].phase.Finished? && since + delay + LOCAL_TTL <= states[k].ops[o].phase.at
    ensures states[k].ops[o].phase.reply != Some(info)
  {
    if states[k].ops[o].phase.reply.Some? {
      var j := StalenessIsBounded(states, labels, delay, k, o);
    }
  }

  // ---------------------------------------------------------------- what the three calls do

  datatype Request = Request(node: nat, id: Id, call: Call)

  /** The calls made so far, in order. */
  function Requests(labels: seq<Label>): seq<Request> {
    if labels == [] then []
    else
      var l := labels[|labels| - 1];
      Requests(labels[..|labels| - 1]) + if l.Begin? then [Request(l.node, l.id, l.call)] else []
  }

  function RequestOf(op: Operation): Request { Request(op.node, op.id, op.call) }

  lemma StepRequests(s: State, l: Label)
    requires Enabled(s, l)
    ensures |Next(s, l).ops| == |s.ops| + if l.Begin? then 1 else 0
    ensures forall o :: 0 <= o < |s.ops| ==> RequestOf(Next(s, l).ops[o]) == RequestOf(s.ops[o])
    ensures l.Begin? ==> RequestOf(Next(s, l).ops[|s.ops|]) == Request(l.node, l.id, l.call)
  {
  }

  /** Operation `o` is the call that was made as number `o`. */
  lemma {:induction false} OperationsAreRequests(states: seq<State>, labels: seq<Label>, k: nat)
    requires IsRun(states, labels) && k <= |labels|
    ensures |states[k].ops| == |Requests(labels[..k])|
    ensures forall o :: 0 <= o < |states[k].ops| ==> RequestOf(states[k].ops[o]) == Requests(labels[..k])[o]
  {
    if k == 0 {
    } else {
      OperationsAreRequests(states, labels, k - 1);
      StepRequests(states[k - 1], labels[k - 1]);
      assert labels[..k][..k - 1] == labels[..k - 1];
    }
  }

  /** An operation keeps its node, sandbox and call, and once finished takes no further step. */
  lemma {:induction false} OperationFixed(states: seq<State>, labels: seq<Label>, o: nat, i: nat, k: nat)
    requires IsRun(states, labels) && i <= k <= |labels| && o < |states[i].ops|
    ensures o < |states[k].ops|
    ensures states[k].ops[o] == states[i].ops[o].(phase := states[k].ops[o].phase)
    ensures states[i].ops[o].phase.Finished? ==> states[k].ops[o].phase == states[i].ops[o].phase
    decreases k
  {
    if i == k {
    } else {
      OperationFixed(states, labels, o, i, k - 1);
      assert Enabled(states[k - 1], labels[k - 1]) && states[k] == Next(states[k - 1], labels[k - 1]);
    }
  }

  lemma FinishedTakesNoStep(states: seq<State>, labels: seq<Label>, o: nat, i: nat, m: nat)
    requires IsRun(states, labels) && i <= m < |labels| && o < |states[i].ops| && states[i].ops[o].phase.Finished?
    ensures !Moves(labels[m], o)
  {
    OperationFixed(states, labels, o, i, m);
    assert Enabled(states[m], labels[m]);
  }

  /** Redis holds the execution a delete asks for. */
  predicate HoldsExecution(s: State, o: nat) {
    && o < |s.ops| && s.ops[o].call.Delete? && s.ops[o].id in s.redis
    && Live(s, s.redis[s.ops[o].id]) && s.redis[s.ops[o].id].info.executionId == s.ops[o].call.executionId
  }

  /** A delete that finds another execution, or none, changes neither Redis nor any cache, then or ever after. */
  lemma DeleteSparesOthers(states: seq<State>, labels: seq<Label>, o: nat, i: nat, m: nat)
    requires IsRun(states, labels) && i < m < |labels| && labels[i] == Compare(o) && !HoldsExecution(states[i], o)
    ensures states[i + 1].redis == states[i].redis && states[i + 1].caches == states[i].caches
    ensures !Moves(labels[m], o)
  {
    assert Enabled(states[i], labels[i]) && states[i + 1] == Next(states[i], labels[i]);
    FinishedTakesNoStep(states, labels, o, i + 1, m);
  }

  /** The steps of a delete: it goes on exactly when Redis holds its execution, then takes the sandbox out of Redis, and
      then out of its own node's cache, and nothing else. */
  lemma DeleteRemoves(s: State, o: nat)
    ensures Enabled(s, Compare(o)) ==> (Next(s, Compare(o)).ops[o].phase.Matched? <==> HoldsExecution(s, o))
    ensures Enabled(s, RedisDelete(o, true)) ==>
              var s' := Next(s, RedisDelete(o, true));
              s'.redis == s.redis - {s.ops[o].id} && s'.caches == s.caches && Enabled(s', LocalDelete(o))
    ensures Enabled(s, LocalDelete(o)) ==>
              var s', n := Next(s, LocalDelete(o)), s.ops[o].node;
              && s'.redis == s.redis && |s'.caches| == |s.caches| && s'.caches[n] == s.caches[n] - {s.ops[o].id}
              && forall j :: 0 <= j < |s.caches| && j != n ==> s'.caches[j] == s.caches[j]
  {
  }

  /** The step may change what Redis holds for the sandbox. */
  predicate Writes(s: State, l: Label, id: Id) {
    (l.RedisSet? || l.SetFails? || l.RedisDelete?) && l.o < |s.ops| && s.ops[l.o].id == id
  }

  lemma {:induction false} RecordStays(states: seq<State>, labels: seq<Label>, id: Id, i: nat, k: nat)
    requires IsRun(states, labels) && i <= k <= |labels|
    requires forall m :: i <= m < k ==> !Writes(states[m], labels[m], id)
    ensures states[i].now <= states[k].now
    ensures (id in states[k].redis <==> id in states[i].redis) && (id in states[i].redis ==> states[k].redis[id] == states[i].redis[id])
    decreases k
  {
    if i == k {
    } else {
      RecordStays(states, labels, id, i, k - 1);
      assert Enabled(states[k - 1], labels[k - 1]) && states[k] == Next(states[k - 1], labels[k - 1]);
      assert !Writes(states[k - 1], labels[k - 1], id);
    }
  }

  lemma AnswerStays(s: State, l: Label, o: nat)
    requires Enabled(s, l) && l != GiveUp(o) && o < |s.ops| && (s.ops[o].phase.Got? || s.ops[o].phase.Finished?)
    ensures o < |Next(s, l).ops|
    ensures var phase, phase' := s.ops[o].phase, Next(s, l).ops[o].phase;
            phase' == phase || (phase.Got? && phase'.Finished? && phase'.reply == Some(phase.info))
  {
  }

  lemma AsksRedis(s: State, o: nat)
    requires Enabled(s, RedisGet(o))
    ensures var id, op := s.ops[o].id, Next(s, RedisGet(o)).ops[o];
            if id in s.redis && Live(s, s.redis[id]) then op.phase == Got(s.redis[id].info, s.now)
            else op.phase.Finished? && op.phase.reply == None
  {
  }

  /** What a Get that asks Redis at step `i` is told: what Redis holds there, unless it is given up before it replies. */
  lemma {:induction false} GetReturnsRecord(states: seq<State>, labels: seq<Label>, o: nat, i: nat, k: nat)
    requires IsRun(states, labels) && i < k <= |labels| && labels[i] == RedisGet(o)
    requires forall m :: i < m < k ==> labels[m] != GiveUp(o)
    ensures o < |states[i].ops| && o < |states[k].ops|
    ensures var id := states[i].ops[o].id;
            if id in states[i].redis && Live(states[i], states[i].redis[id])
            then states[k].ops[o].phase == Got(states[i].redis[id].info, states[i].now)
              || (states[k].ops[o].phase.Finished? && states[k].ops[o].phase.reply == Some(states[i].redis[id].info))
            else states[k].ops[o].phase.Finished? && states[k].ops[o].phase.reply == None
    decreases k
  {
    assert Enabled(states[k - 1], labels[k - 1]) && states[k] == Next(states[k - 1], labels[k - 1]);
    if k > i + 1 {
      GetReturnsRecord(states, labels, o, i, k - 1);
      AnswerStays(states[k - 1], labels[k - 1], o);
    } else {
      AsksRedis(states[i], o);
    }
  }

  /** A Get finds what was stored: if a store was executed at step `i` and nothing else was written for the sandbox
      since, a Get that asks Redis at step `j` is told the stored info until it expires, and nothing afterwards. */
  lemma GetFindsStored(states: seq<State>, labels: seq<Label>, p: nat, i: nat, o: nat, j: nat, k: nat)
    requires IsRun(states, labels) && i < j < k <= |labels| && labels[i] == RedisSet(p) && labels[j] == RedisGet(o)
    requires p < |states[i].ops| && o < |states[j].ops| && states[i].ops[p].id == states[j].ops[o].id
    requires forall m :: i < m < j ==> !Writes(states[m], labels[m], states[i].ops[p].id)
    requires forall m :: j < m < k ==> labels[m] != GiveUp(o)
    ensures states[i].ops[p].call.Store? && o < |states[k].ops|
    ensures var store, phase := states[i].ops[p].call, states[k].ops[o].phase;
            if store.ttl == 0 || states[j].now <= states[i].now + store.ttl
            then phase == Got(store.info, states[j].now) || (phase.Finished? && phase.reply == Some(store.info))
            else phase.Finished? && phase.reply == None
  {
    assert Enabled(states[i], labels[i]) && states[i + 1] == Next(states[i], labels[i]);
    RecordStays(states, labels, states[i].ops[p].id, i + 1, j);
    GetReturnsRecord(states, labels, o, j, k);
  }

  /** The step may change what a node keeps for the sandbox. */
  predicate Touches(s: State, l: Label, node: nat, id: Id) {
    || l == Evict(node, id)
    || ((l.Reply? || l.Cached? || l.LocalDelete?) && l.o < |s.ops| && s.ops[l.o].node == node && s.ops[l.o].id == id)
  }

  lemma {:induction false} ItemKept(states: seq<State>, labels: seq<Label>, node: nat, id: Id, i: nat, k: nat)
    requires IsRun(states, labels) && i <= k <= |labels| && HasItem(states[i], node, id)
    requires forall m :: i <= m < k ==> !Touches(states[m], labels[m], node, id)
    ensures HasItem(states[k], node, id) && states[k].caches[node][id] == states[i].caches[node][id]
    decreases k
  {
    if i == k {
    } else {
      ItemKept(states, labels, node, id, i, k - 1);
      assert Enabled(states[k - 1], labels[k - 1]) && states[k] == Next(states[k - 1], labels[k - 1]);
      assert !Touches(states[k - 1], labels[k - 1], node, id);
    }
  }

  /** The info a node has just read from Redis, or stored there. */
  function InfoOf(op: Operation): Option<Info> {
    if op.call.Get? && op.phase.Got? then Some(op.phase.info)
    else if op.call.Store? && op.phase.Written? then Some(op.call.info)
    else None
  }

  /** What a node read or stored with its cache in use, it answers by itself to every Get of the next 500 ms that may
      use the cache, and to none later. */
  lemma LocalAnswer(states: seq<State>, labels: seq<Label>, i: nat, j: nat, o: nat, p: nat)
    requires IsRun(states, labels) && i < j < |labels| && labels[i] in {Reply(o), Cached(o)}
    requires o < |states[i].ops| && !states[i].ops[o].call.Delete? && states[i].ops[o].call.useCache
    requires In(states[j], p, Begun) && states[j].ops[p].call == Get(true)
    requires states[j].ops[p].node == states[i].ops[o].node && states[j].ops[p].id == states[i].ops[o].id
    requires forall m :: i < m < j ==> !Touches(states[m], labels[m], states[i].ops[o].node, states[i].ops[o].id)
    ensures Enabled(states[j], LocalHit(p)) <==> states[j].now <= states[i].now + 500
    ensures Enabled(states[j], LocalMiss(p)) <==> !Enabled(states[j], LocalHit(p))
    ensures Enabled(states[j], LocalHit(p)) ==>
              var op := Next(states[j], LocalHit(p)).ops[p];
              op.phase.Finished? && op.phase.reply.Some? && op.phase.reply == InfoOf(states[i].ops[o])
  {
    assert Enabled(states[i], labels[i]) && states[i + 1] == Next(states[i], labels[i]);
    ItemKept(states, labels, states[i].ops[o].node, states[i].ops[o].id, i + 1, j);
  }

  // ---------------------------------------------------------------- the bound is reached

  /** A run with its last state, in which nothing was delayed and Redis held `info` only at time 0. */
  ghost predicate Early(states: seq<State>, labels: seq<Label>, last: State, id: Id, info: Info) {
    && PromptRun(states, labels, 0) && states[|labels|] == last
    && forall j :: 0 <= j < |states| && 0 < states[j].now ==> !Holds(states[j], id, info)
  }

  lemma Extend(states: seq<State>, labels: seq<Label>, last: State, l: Label, id: Id, info: Info)
      returns (states': seq<State>, labels': seq<Label>)
    requires Early(states, labels, last, id, info) && Enabled(last, l) && Prompt(Next(last, l), 0)
    requires 0 < Next(last, l).now ==> !Holds(Next(last, l), id, info)
    ensures Early(states', labels', Next(last, l), id, info)
  {
    states', labels' := states + [Next(last, l)], labels + [l];
  }

  lemma {:induction false} LetTimePass(states: seq<State>, labels: seq<Label>, last: State, n: nat, id: Id, info: Info)
      returns (states': seq<State>, labels': seq<Label>)
    requires Early(states, labels, last, id, info) && id !in last.redis
    requires forall o :: 0 <= o < |last.ops| ==> last.ops[o].phase.Finished?
    ensures Early(states', labels', last.(now := last.now + n), id, info)
    decreases n
  {
    if n == 0 {
      states', labels' := states, labels;
      assert last.(now := last.now + 0) == last;
    } else {
      states', labels' := Extend(states, labels, last, Tick, id, info);
      states', labels' := LetTimePass(states', labels', last.(now := last.now + 1), n - 1, id, info);
    }
  }

  /** One node stores a sandbox and keeps it locally; another node deletes it from Redis at once. */
  lemma StoreThenDelete(id: Id, info: Info) returns (states: seq<State>, labels: seq<Label>, last: State)
    ensures Early(states, labels, last, id, info) && last.now == 0 && last.redis == map[] && |last.caches| == 2
    ensures last.caches[0] == map[id := Item(info, LOCAL_TTL, 0)] && |last.ops| == 2
    ensures forall o :: 0 <= o < |last.ops| ==> last.ops[o].phase.Finished?
  {
    last := State(0, map[], [map[], map[]], []);
    states, labels := [last], [];
    states, labels := Extend(states, labels, last, Begin(0, id, Store(info, 0, true)), id, info);
    var s1 := Next(last, Begin(0, id, Store(info, 0, true)));
    states, labels := Extend(states, labels, s1, RedisSet(0), id, info);
    var s2 := Next(s1, RedisSet(0));
    states, labels := Extend(states, labels, s2, Cached(0), id, info);
    last := Next(s2, Cached(0));
    states, labels, last := DeleteElsewhere(states, labels, last, id, info);
  }

  lemma DeleteElsewhere(states: seq<State>, labels: seq<Label>, s: State, id: Id, info: Info)
      returns (states': seq<State>, labels': seq<Label>, last: State)
    requires Early(states, labels, s, id, info) && s.now == 0 && |s.ops| == 1 && s.ops[0].phase.Finished?
    requires s.redis == map[id := Record(info, None)] && s.caches == [map[id := Item(info, LOCAL_TTL, 0)], map[]]
    ensures Early(states', labels', last, id, info) && last.now == 0 && last.redis == map[] && |last.caches| == 2
    ensures last.caches[0] == map[id := Item(info, LOCAL_TTL, 0)] && |last.ops| == 2
    ensures forall o :: 0 <= o < |last.ops| ==> last.ops[o].phase.Finished?
  {
    var l := Begin(1, id, Delete(info.executionId));
    states', labels' := Extend(states, labels, s, l, id, info);
    var s1 := Next(s, l);
    states', labels' := Extend(states', labels', s1, Compare(1), id, info);
    states', labels', last := FinishDelete(states', labels', Next(s1, Compare(1)), id, info);
  }

  lemma FinishDelete(states: seq<State>, labels: seq<Label>, s: State, id: Id, info: Info)
      returns (states': seq<State>, labels': seq<Label>, last: State)
    requires Early(states, labels, s, id, info) && s.now == 0 && |s.ops| == 2 && s.ops[0].phase.Finished?
    requires s.ops[1] == Operation(1, id, Delete(info.executionId), Matched)
    requires s.redis == map[id := Record(info, None)] && s.caches == [map[id := Item(info, LOCAL_TTL, 0)], map[]]
    ensures Early(states', labels', last, id, info) && last.now == 0 && last.redis == map[] && |last.caches| == 2
    ensures last.caches[0] == map[id := Item(info, LOCAL_TTL, 0)] && |last.ops| == 2
    ensures forall o :: 0 <= o < |last.ops| ==> last.ops[o].phase.Finished?
  {
    states', labels' := Extend(states, labels, s, RedisDelete(1, true), id, info);
    var s1 := Next(s, RedisDelete(1, true));
    states', labels' := Extend(states', labels', s1, LocalDelete(1), id, info);
    last := Next(s1, LocalDelete(1));
  }

  /** The 500 ms are really used: with no delay at all, a node can return a sandbox that Redis last held 500 ms
      before. */
  lemma BoundIsReached(id: Id, info: Info) returns (states: seq<State>, labels: seq<Label>, o: nat)
    ensures PromptRun(states, labels, 0) && o < |states[|labels|].ops|
    ensures states[|labels|].ops[o].id == id && states[|labels|].ops[o].phase.Finished?
    ensures states[|labels|].ops[o].phase.reply == Some(info) && states[|labels|].ops[o].phase.at == LOCAL_TTL
    ensures forall j :: 0 <= j < |states| && 0 < states[j].now ==> !Holds(states[j], id, info)
  {
    var last: State;
    states, labels, last := StoreThenDelete(id, info);
    states, labels := LetTimePass(states, labels, last, LOCAL_TTL, id, info);
    last := last.(now := last.now + LOCAL_TTL);
    states, labels := Extend(states, labels, last, Begin(0, id, Get(true)), id, info);
    last := Next(last, Begin(0, id, Get(true)));
    o := 2;
    states, labels := Extend(states, labels, last, LocalHit(o), id, info);
  }
}
