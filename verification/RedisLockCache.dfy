/** The two-tier Redis cache under its distributed lock, one key at a time: any number of instances
    run GetOrSet, background refresh and Delete concurrently, and time passes between their steps. */
module RedisLockCache {
  import opened Wrappers

  // ---------------------------------------------------------------- configuration

  /** Durations in milliseconds. */
  datatype Config = Config(refreshTimeout: nat, redisTimeout: nat, lockTTL: nat) {
    /** The longest a locked write can take: recheck, callback, store. */
    function WriteBudget(): nat { refreshTimeout + 2 * redisTimeout }
  }

  const REDIS_DEFAULT_TIMEOUT := 2_000
  const REFRESH_DEFAULT_TIMEOUT := 30_000

  /** The timeouts `NewRedisCache` settles on when locking is not switched off. */
  function NewConfig(refreshTimeout: nat, redisTimeout: nat): Config {
    var redis := if redisTimeout == 0 then REDIS_DEFAULT_TIMEOUT else redisTimeout;
    var refresh := if refreshTimeout == 0 then REFRESH_DEFAULT_TIMEOUT else refreshTimeout;
    Config(refresh, redis, refresh + 2 * redis)
  }

  // ---------------------------------------------------------------- states

  type OpId = nat
  type Value = nat
  type Error = nat

  /** What GetOrSet hands back. */
  datatype Reply = Returned(value: Value) | Failed(error: Error)

  datatype Kind = GetOrSet | Refresh | Delete

  /** A lock obtained at step `step`, held in Redis up to and including time `expires`. */
  datatype Hold = Hold(step: nat, expires: nat)

  /** Where one call is; `Looking` is the first read of GetOrSet, before any lock.  A timed phase ends by its deadline, because the call it waits for runs under
      a context with that timeout. */
  datatype Phase =
    | Looking
    | Acquiring
    | Prepared(deadline: nat)
    | Fetching(deadline: nat, origin: nat)
    | Storing(deadline: nat, origin: nat, value: Value)
    | Deleting(deadline: nat)
    | Releasing
    | Done
    | Crashed
  {
    predicate Timed() { Prepared? || Fetching? || Storing? || Deleting? }
  }

  /** `deleted` records that a Delete's DEL command was executed, `reply` what a GetOrSet is going to return. */
  datatype Op = Op(kind: Kind, hold: Option<Hold>, phase: Phase, deleted: bool, reply: Option<Reply>) {
    /** Inside the section the lock protects. */
    predicate Active() { hold.Some? && phase.Timed() }
    /** Only GetOrSet has somebody to answer. */
    function Answer(r: Reply): Op { if kind.GetOrSet? then this.(reply := Some(r)) else this }
  }

  /** A stored value with the step at which the callback that produced it was started. */
  datatype Entry = Entry(value: Value, origin: nat)

  datatype LockRecord = LockRecord(owner: OpId, expires: nat)

  datatype State = State(now: nat, steps: nat, entry: Option<Entry>, lock: Option<LockRecord>, ops: map<OpId, Op>) {
    predicate LockFree() { lock.None? || lock.value.expires < now }
    function Put(id: OpId, op: Op): State { this.(ops := ops[id := op]) }
  }

  datatype Label =
    | Tick(d: nat)
    | Begin(id: OpId, kind: Kind)
    | FastHit(id: OpId)
    | FastMiss(id: OpId)
    | Obtain(id: OpId)
    | ObtainLost(id: OpId)
    | AcquireFail(id: OpId)
    | RecheckHit(id: OpId)
    | StartCallback(id: OpId)
    | CallbackOk(id: OpId, value: Value)
    | CallbackErr(id: OpId, error: Error)
    | Store(id: OpId)
    | RedisDel(id: OpId)
    | RedisError(id: OpId)
    | Release(id: OpId)
    | ReleaseFail(id: OpId)
    | Crash(id: OpId)
    | EntryExpires

  const INITIAL := State(0, 0, None, None, map[])

  /** Time passes only as far as the nearest deadline: every timed call finishes or gives up by then. */
  predicate Punctual(s: State, d: nat) {
    forall id :: id in s.ops && s.ops[id].phase.Timed() ==> s.now + d <= s.ops[id].phase.deadline
  }

  predicate Enabled(s: State, l: Label) {
    match l
    case Tick(d) => Punctual(s, d)
    case Begin(id, _) => id !in s.ops
    case FastHit(id) => id in s.ops && s.ops[id].phase.Looking? && s.entry.Some?
    case FastMiss(id) => id in s.ops && s.ops[id].phase.Looking?
    case Obtain(id) => id in s.ops && s.ops[id].phase.Acquiring? && s.LockFree()
    case ObtainLost(id) => id in s.ops && s.ops[id].phase.Acquiring? && s.LockFree()
    case AcquireFail(id) => id in s.ops && s.ops[id].phase.Acquiring?
    case RecheckHit(id) => id in s.ops && s.ops[id].kind.GetOrSet? && s.ops[id].phase.Prepared? && s.entry.Some?
    case StartCallback(id) => id in s.ops && s.ops[id].phase.Prepared?
    case CallbackOk(id, _) => id in s.ops && s.ops[id].phase.Fetching?
    case CallbackErr(id, _) => id in s.ops && s.ops[id].phase.Fetching?
    case Store(id) => id in s.ops && s.ops[id].phase.Storing?
    case RedisDel(id) => id in s.ops && s.ops[id].phase.Deleting?
    case RedisError(id) => id in s.ops && (s.ops[id].phase.Storing? || s.ops[id].phase.Deleting?)
    case Release(id) => id in s.ops && s.ops[id].phase.Releasing?
    case ReleaseFail(id) => id in s.ops && s.ops[id].phase.Releasing?
    case Crash(id) => id in s.ops && !s.ops[id].phase.Done?
    case EntryExpires => true
  }

  function Min(a: nat, b: nat): nat { if a <= b then a else b }

  /** What a call does once it knows whether it got the lock. */
  function AfterAcquire(c: Config, s: State, op: Op, hold: Option<Hold>): Op {
    match op.kind
    case GetOrSet => op.(hold := hold, phase := Prepared(s.now + c.redisTimeout))
    case Refresh => op.(hold := hold, phase := if hold.Some? then Prepared(s.now) else Done)
    case Delete => op.(hold := hold, phase := Deleting(s.now + c.redisTimeout))
  }

  /** GetOrSet stores only under the lock; a refresh stores under what is left of its own timeout. */
  function AfterCallback(c: Config, s: State, op: Op, value: Value): Op
    requires op.phase.Fetching?
  {
    if op.hold.None? then op.Answer(Returned(value)).(phase := Releasing)
    else
      var limit := s.now + c.redisTimeout;
      var deadline := if op.kind.Refresh? then Min(limit, op.phase.deadline) else limit;
      op.Answer(Returned(value)).(phase := Storing(deadline, op.phase.origin, value))
  }

  function Effect(c: Config, s: State, l: Label): State
    requires Enabled(s, l)
  {
    match l
    case Tick(d) => s.(now := s.now + d)
    case Begin(id, kind) => s.Put(id, Op(kind, None, if kind.GetOrSet? then Looking else Acquiring, false, None))
    case FastHit(id) => s.Put(id, s.ops[id].Answer(Returned(s.entry.value.value)).(phase := Done))
    case FastMiss(id) => s.Put(id, s.ops[id].(phase := Acquiring))
    case Obtain(id) =>
      var hold := Hold(s.steps, s.now + c.lockTTL);
      s.Put(id, AfterAcquire(c, s, s.ops[id], Some(hold))).(lock := Some(LockRecord(id, hold.expires)))
    case ObtainLost(id) =>
      s.Put(id, AfterAcquire(c, s, s.ops[id], None)).(lock := Some(LockRecord(id, s.now + c.lockTTL)))
    case AcquireFail(id) => s.Put(id, AfterAcquire(c, s, s.ops[id], None))
    case RecheckHit(id) => s.Put(id, s.ops[id].Answer(Returned(s.entry.value.value)).(phase := Releasing))
    case StartCallback(id) => s.Put(id, s.ops[id].(phase := Fetching(s.now + c.refreshTimeout, s.steps)))
    case CallbackOk(id, value) => s.Put(id, AfterCallback(c, s, s.ops[id], value))
    case CallbackErr(id, error) => s.Put(id, s.ops[id].Answer(Failed(error)).(phase := Releasing))
    case Store(id) =>
      s.Put(id, s.ops[id].(phase := Releasing))
        .(entry := Some(Entry(s.ops[id].phase.value, s.ops[id].phase.origin)))
    case RedisDel(id) => s.Put(id, s.ops[id].(phase := Releasing, deleted := true)).(entry := None)
    case RedisError(id) => s.Put(id, s.ops[id].(phase := Releasing))
    case Release(id) =>
      var mine := s.ops[id].hold.Some? && s.lock.Some? && s.lock.value.owner == id;
      s.Put(id, s.ops[id].(phase := Done)).(lock := if mine then None else s.lock)
    case ReleaseFail(id) => s.Put(id, s.ops[id].(phase := Done))
    case Crash(id) => s.Put(id, s.ops[id].(phase := Crashed))
    case EntryExpires => s.(entry := None)
  }

  function Next(c: Config, s: State, l: Label): State
    requires Enabled(s, l)
  {
    Effect(c, s, l).(steps := s.steps + 1)
  }

  ghost predicate IsRun(c: Config, states: seq<State>, labels: seq<Label>) {
    && |states| == |labels| + 1 && states[0] == INITIAL
    && forall i :: 0 <= i < |labels| ==> Enabled(states[i], labels[i]) && states[i + 1] == Next(c, states[i], labels[i])
  }

  // ---------------------------------------------------------------- the invariant

  /** A call in its locked section owns the lock, and what remains of its write fits before expiry. */
  predicate HoldOk(c: Config, s: State, id: OpId, op: Op)
    requires op.Active()
  {
    && s.lock == Some(LockRecord(id, op.hold.value.expires))
    && s.now <= op.phase.deadline
    && match op.phase
       case Prepared(d) => d + c.refreshTimeout + c.redisTimeout <= op.hold.value.expires
       case Fetching(d, origin) => d + c.redisTimeout <= op.hold.value.expires && op.hold.value.step < origin
       case Storing(d, origin, _) => d <= op.hold.value.expires && op.hold.value.step < origin
       case Deleting(d) => d <= op.hold.value.expires
       case _ => true
  }

  predicate OpOk(c: Config, s: State, id: OpId, op: Op) {
    && (op.hold.Some? ==> op.hold.value.step < s.steps)
    && (op.phase.Fetching? || op.phase.Storing? ==> op.phase.origin < s.steps)
    && (op.phase.Storing? ==> op.hold.Some?)
    && (op.deleted ==> op.phase.Releasing? || op.phase.Done? || op.phase.Crashed?)
    && (op.Active() ==> HoldOk(c, s, id, op))
  }

  /** Nothing found now, and nothing a lock holder may still store, is older than a locked delete. */
  predicate DeleteStands(s: State, op: Op) {
    op.deleted && op.hold.Some? ==>
      && (s.entry.Some? ==> op.hold.value.step < s.entry.value.origin)
      && (forall g :: g in s.ops && s.ops[g].Active() ==> op.hold.value.step < s.ops[g].hold.value.step)
  }

  ghost predicate Inv(c: Config, s: State) {
    && (forall id :: id in s.ops ==> OpOk(c, s, id, s.ops[id]))
    && (forall id :: id in s.ops ==> DeleteStands(s, s.ops[id]))
  }

  predicate Moves(l: Label, id: OpId) {
    if l.Tick? || l.EntryExpires? then false else l.id == id
  }

  predicate Acquires(l: Label) { l.Obtain? || l.ObtainLost? || l.AcquireFail? }

  lemma OtherOpKept(c: Config, s: State, l: Label, id: OpId)
    requires Enabled(s, l) && id in s.ops && !Moves(l, id) && OpOk(c, s, id, s.ops[id])
    requires l.Release? ==> OpOk(c, s, l.id, s.ops[l.id])
    ensures OpOk(c, Next(c, s, l), id, Next(c, s, l).ops[id])
  {
    assert Next(c, s, l).ops[id] == s.ops[id];
  }

  lemma AcquirerOk(c: Config, s: State, l: Label)
    requires Enabled(s, l) && Acquires(l) && c.WriteBudget() <= c.lockTTL && OpOk(c, s, l.id, s.ops[l.id])
    ensures OpOk(c, Next(c, s, l), l.id, Next(c, s, l).ops[l.id])
  {
  }

  lemma CallerOk(c: Config, s: State, l: Label)
    requires Enabled(s, l) && (l.StartCallback? || l.CallbackOk?) && OpOk(c, s, l.id, s.ops[l.id])
    ensures OpOk(c, Next(c, s, l), l.id, Next(c, s, l).ops[l.id])
  {
  }

  lemma FinisherOk(c: Config, s: State, l: Label)
    requires Enabled(s, l) && !l.Tick? && !l.EntryExpires? && !Acquires(l) && !l.StartCallback? && !l.CallbackOk?
    requires l.id in s.ops ==> OpOk(c, s, l.id, s.ops[l.id])
    ensures OpOk(c, Next(c, s, l), l.id, Next(c, s, l).ops[l.id])
  {
  }

  lemma StepKeepsOp(c: Config, s: State, l: Label, id: OpId)
    requires Enabled(s, l) && c.WriteBudget() <= c.lockTTL && id in Next(c, s, l).ops
    requires id in s.ops ==> OpOk(c, s, id, s.ops[id])
    requires l.Release? ==> OpOk(c, s, l.id, s.ops[l.id])
    ensures OpOk(c, Next(c, s, l), id, Next(c, s, l).ops[id])
  {
    if !Moves(l, id) {
      OtherOpKept(c, s, l, id);
    } else if Acquires(l) {
      AcquirerOk(c, s, l);
    } else if l.StartCallback? || l.CallbackOk? {
      CallerOk(c, s, l);
    } else {
      FinisherOk(c, s, l);
    }
  }

  /** A locked delete is older than the lock of every call still in its section. */
  lemma HoldersFollow(c: Config, s: State, l: Label, id: OpId, g: OpId)
    requires Inv(c, s) && Enabled(s, l)
    requires id in Next(c, s, l).ops && Next(c, s, l).ops[id].deleted && Next(c, s, l).ops[id].hold.Some?
    requires g in Next(c, s, l).ops && Next(c, s, l).ops[g].Active()
    ensures Next(c, s, l).ops[id].hold.value.step < Next(c, s, l).ops[g].hold.value.step
  {
    if id in s.ops { assert OpOk(c, s, id, s.ops[id]) && DeleteStands(s, s.ops[id]); }
    if g in s.ops { assert OpOk(c, s, g, s.ops[g]); }
  }

  lemma EntryFollows(c: Config, s: State, l: Label, id: OpId)
    requires Inv(c, s) && Enabled(s, l) && id in Next(c, s, l).ops && Next(c, s, l).entry.Some?
    requires Next(c, s, l).ops[id].deleted && Next(c, s, l).ops[id].hold.Some?
    ensures Next(c, s, l).ops[id].hold.value.step < Next(c, s, l).entry.value.origin
  {
    if id in s.ops { assert OpOk(c, s, id, s.ops[id]) && DeleteStands(s, s.ops[id]); }
    if l.Store? { assert OpOk(c, s, l.id, s.ops[l.id]); }
  }

  lemma StepKeepsDeletes(c: Config, s: State, l: Label)
    requires Inv(c, s) && Enabled(s, l)
    ensures forall id :: id in Next(c, s, l).ops ==> DeleteStands(Next(c, s, l), Next(c, s, l).ops[id])
  {
    var s' := Next(c, s, l);
    forall id | id in s'.ops ensures DeleteStands(s', s'.ops[id]) {
      if s'.ops[id].deleted && s'.ops[id].hold.Some? {
        forall g | g in s'.ops && s'.ops[g].Active() ensures s'.ops[id].hold.value.step < s'.ops[g].hold.value.step {
          HoldersFollow(c, s, l, id, g);
        }
        if s'.entry.Some? { EntryFollows(c, s, l, id); }
      }
    }
  }

  lemma {:induction false} RunKeepsInv(c: Config, states: seq<State>, labels: seq<Label>, k: nat)
    requires IsRun(c, states, labels) && c.WriteBudget() <= c.lockTTL && k <= |labels|
    ensures Inv(c, states[k]) && states[k].steps == k
  {
    if k == 0 {
    } else {
      RunKeepsInv(c, states, labels, k - 1);
      var s, l: Label := states[k - 1], labels[k - 1];
      forall id | id in Next(c, s, l).ops ensures OpOk(c, Next(c, s, l), id, Next(c, s, l).ops[id]) {
        StepKeepsOp(c, s, l, id);
      }
      StepKeepsDeletes(c, states[k - 1], labels[k - 1]);
    }
  }

  // ---------------------------------------------------------------- where values come from

  /** The callback of call `id`, made after it obtained the lock at step `h`, started at step `o` and returned
      `v` at step `j`. */
  ghost predicate Fetched(labels: seq<Label>, id: OpId, h: nat, o: nat, j: nat, v: Value) {
    && h < o < j < |labels|
    && labels[h] == Obtain(id) && labels[o] == StartCallback(id) && labels[j] == CallbackOk(id, v)
  }

  predicate Overwrites(l: Label) { l.Store? || l.RedisDel? || l.EntryExpires? }

  /** The entry is what call `id` fetched under the lock and stored at step `m`, the last write before step `k`. */
  ghost predicate StoredBy(labels: seq<Label>, e: Entry, id: OpId, h: nat, j: nat, m: nat, k: nat) {
    && j < m < k <= |labels| && Fetched(labels, id, h, e.origin, j, e.value) && labels[m] == Store(id)
    && forall n :: m < n < k ==> !Overwrites(labels[n])
  }

  ghost predicate EntryTraced(s: State, labels: seq<Label>, k: nat) {
    s.entry.Some? ==> exists id: OpId, h: nat, j: nat, m: nat :: StoredBy(labels, s.entry.value, id, h, j, m, k)
  }

  /** Step `m` gave call `id` the reply: its own callback's result, or the entry it found there. */
  ghost predicate AnsweredAt(states: seq<State>, labels: seq<Label>, id: OpId, reply: Reply, m: nat) {
    && m < |labels| < |states|
    && match reply
       case Failed(error) => labels[m] == CallbackErr(id, error)
       case Returned(v) =>
         || labels[m] == CallbackOk(id, v)
         || (labels[m] in {FastHit(id), RecheckHit(id)} && states[m].entry.Some? && states[m].entry.value.value == v)
  }

  predicate Answers(l: Label) { l.FastHit? || l.RecheckHit? || l.CallbackOk? || l.CallbackErr? }

  /** The recorded step numbers are the steps of the run at which those things happened. */
  ghost predicate OpTraced(states: seq<State>, labels: seq<Label>, k: nat, id: OpId, op: Op)
    requires k <= |labels|
  {
    && (op.hold.Some? ==> op.hold.value.step < k && labels[op.hold.value.step] == Obtain(id))
    && (op.phase.Fetching? || op.phase.Storing? ==>
          && op.phase.origin < k && labels[op.phase.origin] == StartCallback(id)
          && (op.hold.Some? ==> op.hold.value.step < op.phase.origin))
    && (op.phase.Storing? ==>
          && op.hold.Some?
          && exists j: nat :: j < k && Fetched(labels, id, op.hold.value.step, op.phase.origin, j, op.phase.value))
    && (op.kind.Refresh? && (op.phase.Prepared? || op.phase.Fetching?) ==> op.hold.Some?)
    && (op.reply.Some? ==> exists m: nat :: m < k && AnsweredAt(states, labels, id, op.reply.value, m))
    && (op.kind.GetOrSet? && (op.phase.Storing? || op.phase.Releasing? || op.phase.Done?) ==> op.reply.Some?)
    && (op.kind.Delete? ==> !op.phase.Prepared? && !op.phase.Fetching? && !op.phase.Storing?)
    && (op.phase.Deleting? ==> op.kind.Delete?)
  }

  ghost predicate Traced(states: seq<State>, labels: seq<Label>, k: nat)
    requires k <= |labels| < |states|
  {
    && EntryTraced(states[k], labels, k)
    && forall id :: id in states[k].ops ==> OpTraced(states, labels, k, id, states[k].ops[id])
  }

  lemma OpStaysTraced(states: seq<State>, labels: seq<Label>, k: nat, id: OpId, op: Op)
    requires k < |labels| && OpTraced(states, labels, k, id, op)
    ensures OpTraced(states, labels, k + 1, id, op)
  {
  }

  lemma CallbackTraced(c: Config, states: seq<State>, labels: seq<Label>, k: nat, id: OpId)
    requires IsRun(c, states, labels) && k < |labels| && labels[k].CallbackOk? && labels[k].id == id
    requires id in states[k].ops && OpTraced(states, labels, k, id, states[k].ops[id])
    ensures id in states[k + 1].ops && OpTraced(states, labels, k + 1, id, states[k + 1].ops[id])
  {
    assert Enabled(states[k], labels[k]) && states[k + 1] == Next(c, states[k], labels[k]);
    var op := states[k + 1].ops[id];
    if op.phase.Storing? {
      assert Fetched(labels, id, op.hold.value.step, op.phase.origin, k, op.phase.value);
    }
    if op.reply != states[k].ops[id].reply {
      assert AnsweredAt(states, labels, id, op.reply.value, k);
    }
  }

  lemma AcquirerTraced(c: Config, states: seq<State>, labels: seq<Label>, k: nat, id: OpId)
    requires IsRun(c, states, labels) && k < |labels| && states[k].steps == k && Acquires(labels[k]) && labels[k].id == id
    requires id in states[k].ops && OpTraced(states, labels, k, id, states[k].ops[id])
    ensures id in states[k + 1].ops && OpTraced(states, labels, k + 1, id, states[k + 1].ops[id])
  {
    assert Enabled(states[k], labels[k]) && states[k + 1] == Next(c, states[k], labels[k]);
  }

  lemma HitTraced(c: Config, states: seq<State>, labels: seq<Label>, k: nat, id: OpId)
    requires IsRun(c, states, labels) && k < |labels| && Answers(labels[k]) && !labels[k].CallbackOk? && labels[k].id == id
    requires id in states[k].ops && OpTraced(states, labels, k, id, states[k].ops[id])
    ensures id in states[k + 1].ops && OpTraced(states, labels, k + 1, id, states[k + 1].ops[id])
  {
    assert Enabled(states[k], labels[k]) && states[k + 1] == Next(c, states[k], labels[k]);
    var op := states[k + 1].ops[id];
    if op.reply != states[k].ops[id].reply {
      assert AnsweredAt(states, labels, id, op.reply.value, k);
    }
  }

  lemma OtherMoverTraced(c: Config, states: seq<State>, labels: seq<Label>, k: nat, id: OpId)
    requires IsRun(c, states, labels) && k < |labels| && states[k].steps == k && Moves(labels[k], id)
    requires !Answers(labels[k]) && !Acquires(labels[k])
    requires id in states[k].ops ==> OpTraced(states, labels, k, id, states[k].ops[id])
    ensures id in states[k + 1].ops && OpTraced(states, labels, k + 1, id, states[k + 1].ops[id])
  {
    assert Enabled(states[k], labels[k]) && states[k + 1] == Next(c, states[k], labels[k]);
  }

  lemma OpKeptTraced(c: Config, states: seq<State>, labels: seq<Label>, k: nat, id: OpId)
    requires IsRun(c, states, labels) && k < |labels| && states[k].steps == k && id in states[k + 1].ops
    requires id in states[k].ops ==> OpTraced(states, labels, k, id, states[k].ops[id])
    ensures OpTraced(states, labels, k + 1, id, states[k + 1].ops[id])
  {
    if Moves(labels[k], id) {
      assert Enabled(states[k], labels[k]);
      if labels[k].CallbackOk? {
        CallbackTraced(c, states, labels, k, id);
      } else if Acquires(labels[k]) {
        AcquirerTraced(c, states, labels, k, id);
      } else if Answers(labels[k]) {
        HitTraced(c, states, labels, k, id);
      } else {
        OtherMoverTraced(c, states, labels, k, id);
      }
    } else {
      assert states[k + 1] == Next(c, states[k], labels[k]);
      assert states[k + 1].ops[id] == states[k].ops[id];
      OpStaysTraced(states, labels, k, id, states[k].ops[id]);
    }
  }

  lemma StepEntry(c: Config, s: State, l: Label)
    requires Enabled(s, l)
    ensures Next(c, s, l).entry ==
              if l.Store? then Some(Entry(s.ops[l.id].phase.value, s.ops[l.id].phase.origin)) else if Overwrites(l) then None else s.entry
  {
  }

  lemma EntryStaysTraced(s: State, labels: seq<Label>, k: nat, s': State)
    requires k < |labels| && EntryTraced(s, labels, k) && !Overwrites(labels[k]) && s'.entry == s.entry
    ensures EntryTraced(s', labels, k + 1)
  {
    if s.entry.Some? {
      var id: OpId, h: nat, j: nat, m: nat :| StoredBy(labels, s.entry.value, id, h, j, m, k);
      assert StoredBy(labels, s.entry.value, id, h, j, m, k + 1);
    }
  }

  lemma StoreTraced(states: seq<State>, labels: seq<Label>, k: nat, id: OpId, op: Op, s': State) returns (h: nat, j: nat)
    requires k < |labels| && labels[k] == Store(id) && op.phase.Storing? && OpTraced(states, labels, k, id, op)
    requires s'.entry == Some(Entry(op.phase.value, op.phase.origin))
    ensures StoredBy(labels, s'.entry.value, id, h, j, k, k + 1)
  {
    h := op.hold.value.step;
    j :| j < k && Fetched(labels, id, h, op.phase.origin, j, op.phase.value);
  }

  lemma EntryKeptTraced(c: Config, states: seq<State>, labels: seq<Label>, k: nat)
    requires IsRun(c, states, labels) && k < |labels| && Traced(states, labels, k)
    ensures EntryTraced(states[k + 1], labels, k + 1)
  {
    var s, l := states[k], labels[k];
    assert Enabled(s, l) && states[k + 1] == Next(c, s, l);
    StepEntry(c, s, l);
    if l.Store? {
      var h, j := StoreTraced(states, labels, k, l.id, s.ops[l.id], states[k + 1]);
    } else if !Overwrites(l) {
      EntryStaysTraced(s, labels, k, states[k + 1]);
    }
  }

  /** In every run each entry is the value some callback returned under the lock and the last thing stored, and
      each reply is the callback's result or an entry that was there. */
  lemma {:induction false} RunIsTraced(c: Config, states: seq<State>, labels: seq<Label>, k: nat)
    requires IsRun(c, states, labels) && k <= |labels|
    ensures Traced(states, labels, k) && states[k].steps == k
  {
    if k == 0 {
    } else {
      RunIsTraced(c, states, labels, k - 1);
      EntryKeptTraced(c, states, labels, k - 1);
      forall id | id in states[k].ops ensures OpTraced(states, labels, k, id, states[k].ops[id]) {
        OpKeptTraced(c, states, labels, k - 1, id);
      }
    }
  }

  lemma StoreIsTraced(c: Config, states: seq<State>, labels: seq<Label>, id: OpId, m: nat) returns (h: nat, j: nat)
    requires IsRun(c, states, labels) && m < |labels| && labels[m] == Store(id)
    ensures states[m + 1].entry.Some? && StoredBy(labels, states[m + 1].entry.value, id, h, j, m, m + 1)
  {
    assert Enabled(states[m], labels[m]) && states[m + 1] == Next(c, states[m], labels[m]);
    StepEntry(c, states[m], labels[m]);
    RunIsTraced(c, states, labels, m);
    h, j := StoreTraced(states, labels, m, id, states[m].ops[id], states[m + 1]);
  }

  /** A stored value is found until the next write: the one its caller's callback returned. */
  lemma {:induction false} StoredIsFound(c: Config, states: seq<State>, labels: seq<Label>, id: OpId, m: nat, k: nat)
      returns (h: nat, j: nat)
    requires IsRun(c, states, labels) && m < k <= |labels| && labels[m] == Store(id)
    requires forall n :: m < n < k ==> !Overwrites(labels[n])
    ensures states[k].entry.Some? && StoredBy(labels, states[k].entry.value, id, h, j, m, k)
    decreases k
  {
    if k == m + 1 {
      h, j := StoreIsTraced(c, states, labels, id, m);
    } else {
      StepEntry(c, states[k - 1], labels[k - 1]);
      h, j := StoredIsFound(c, states, labels, id, m, k - 1);
    }
  }

  /** The entry at step `k`, if there is one, comes from the last write before it, and that was a store. */
  lemma FoundWasStored(c: Config, states: seq<State>, labels: seq<Label>, k: nat) returns (id: OpId, h: nat, j: nat, m: nat)
    requires IsRun(c, states, labels) && k <= |labels| && states[k].entry.Some?
    ensures StoredBy(labels, states[k].entry.value, id, h, j, m, k)
  {
    RunIsTraced(c, states, labels, k);
    id, h, j, m :| StoredBy(labels, states[k].entry.value, id, h, j, m, k);
  }

  // ---------------------------------------------------------------- what GetOrSet returns

  /** A finished GetOrSet returned its callback's result or an entry it found in Redis, at one step of the run. */
  lemma ReplyIsTraced(c: Config, states: seq<State>, labels: seq<Label>, id: OpId, k: nat) returns (m: nat)
    requires IsRun(c, states, labels) && k <= |labels| && id in states[k].ops
    requires states[k].ops[id].kind.GetOrSet? && states[k].ops[id].phase.Done?
    ensures states[k].ops[id].reply.Some? && m < k && AnsweredAt(states, labels, id, states[k].ops[id].reply.value, m)
  {
    RunIsTraced(c, states, labels, k);
    assert OpTraced(states, labels, k, id, states[k].ops[id]);
    m :| m < k && AnsweredAt(states, labels, id, states[k].ops[id].reply.value, m);
  }

  /** Conversely, the step that finds an entry or hears from the callback decides the reply for good. */
  lemma {:induction false} AnswerIsFinal(c: Config, states: seq<State>, labels: seq<Label>, m: nat, k: nat)
    requires IsRun(c, states, labels) && m < k <= |labels| && Answers(labels[m])
    requires labels[m].id in states[m].ops && states[m].ops[labels[m].id].kind.GetOrSet?
    ensures var id := labels[m].id;
            && id in states[k].ops && states[k].ops[id].kind.GetOrSet? && states[k].ops[id].reply.Some?
            && AnsweredAt(states, labels, id, states[k].ops[id].reply.value, m)
            && !states[k].ops[id].phase.Looking? && !states[k].ops[id].phase.Acquiring?
            && !states[k].ops[id].phase.Prepared? && !states[k].ops[id].phase.Fetching?
    decreases k
  {
    assert Enabled(states[k - 1], labels[k - 1]) && states[k] == Next(c, states[k - 1], labels[k - 1]);
    if k > m + 1 {
      AnswerIsFinal(c, states, labels, m, k - 1);
    }
  }

  /** A call does nothing before it begins. */
  lemma {:induction false} ActsAfterBegin(c: Config, states: seq<State>, labels: seq<Label>, id: OpId, b: nat, m: nat)
    requires IsRun(c, states, labels) && b < |labels| && m <= |labels| && labels[b].Begin? && labels[b].id == id
    requires id in states[m].ops
    ensures b < m
  {
    if m <= b { OpsGrow(c, states, labels, id, m, b); }
    assert Enabled(states[b], labels[b]);
  }

  lemma StepKeepsKind(c: Config, s: State, l: Label, id: OpId)
    requires Enabled(s, l) && id in s.ops
    ensures id in Next(c, s, l).ops && Next(c, s, l).ops[id].kind == s.ops[id].kind
  {
  }

  lemma {:induction false} OpsGrow(c: Config, states: seq<State>, labels: seq<Label>, id: OpId, i: nat, k: nat)
    requires IsRun(c, states, labels) && i <= k <= |labels| && id in states[i].ops
    ensures id in states[k].ops && states[k].ops[id].kind == states[i].ops[id].kind
    decreases k
  {
    if i < k {
      OpsGrow(c, states, labels, id, i, k - 1);
      StepKeepsKind(c, states[k - 1], labels[k - 1], id);
    }
  }

  /** A call is of the kind it began as. */
  lemma KindIsAsBegun(c: Config, states: seq<State>, labels: seq<Label>, id: OpId, kind: Kind, b: nat, k: nat)
    requires IsRun(c, states, labels) && b < k <= |labels| && labels[b] == Begin(id, kind)
    ensures id in states[k].ops && states[k].ops[id].kind == kind
  {
    assert states[b + 1] == Next(c, states[b], labels[b]);
    OpsGrow(c, states, labels, id, b + 1, k);
  }

  // ---------------------------------------------------------------- a locked delete is never undone

  /** A call keeps the hold it obtained, and a delete once executed stays executed. */
  lemma {:induction false} HoldPersists(c: Config, states: seq<State>, labels: seq<Label>, d: OpId, i: nat, j: nat, k: nat)
    requires IsRun(c, states, labels) && i < j < k <= |labels|
    requires labels[i] == Obtain(d) && labels[j] == RedisDel(d)
    ensures d in states[k].ops && states[k].ops[d].deleted
    ensures states[k].ops[d].hold.Some? && states[k].ops[d].hold.value.step == i
    decreases k
  {
    HoldKept(c, states, labels, d, i, k);
    assert Enabled(states[k - 1], labels[k - 1]);
    if k > j + 1 {
      HoldPersists(c, states, labels, d, i, j, k - 1);
    }
  }

  lemma {:induction false} HoldKept(c: Config, states: seq<State>, labels: seq<Label>, d: OpId, i: nat, k: nat)
    requires IsRun(c, states, labels) && i < k <= |labels| && labels[i] == Obtain(d)
    ensures d in states[k].ops && !states[k].ops[d].phase.Looking? && !states[k].ops[d].phase.Acquiring?
    ensures states[k].ops[d].hold.Some? && states[k].ops[d].hold.value.step == i
  {
    if k == i + 1 {
      RunIsTraced(c, states, labels, i);
      assert Enabled(states[i], labels[i]);
    } else {
      HoldKept(c, states, labels, d, i, k - 1);
      assert Enabled(states[k - 1], labels[k - 1]);
    }
  }

  /** If a Delete obtained the lock at step `i` and executed DEL at step `j`, whatever is found at any
      later point was returned by a callback that was started after step `i`, and stored under the lock. */
  lemma LockedDeleteStands(c: Config, states: seq<State>, labels: seq<Label>, d: OpId, i: nat, j: nat, k: nat)
      returns (id: OpId, h: nat, r: nat, m: nat)
    requires IsRun(c, states, labels) && c.WriteBudget() <= c.lockTTL
    requires i < j < k <= |labels| && labels[i] == Obtain(d) && labels[j] == RedisDel(d)
    requires states[k].entry.Some?
    ensures i < states[k].entry.value.origin && StoredBy(labels, states[k].entry.value, id, h, r, m, k)
  {
    RunKeepsInv(c, states, labels, k);
    HoldPersists(c, states, labels, d, i, j, k);
    assert DeleteStands(states[k], states[k].ops[d]);
    id, h, r, m := FoundWasStored(c, states, labels, k);
  }

  /** A callback, started after step `i`, returned `v` before step `k`. */
  ghost predicate FreshValue(labels: seq<Label>, i: nat, v: Value, id: OpId, o: nat, r: nat, k: nat) {
    i < o < r < k <= |labels| && labels[o] == StartCallback(id) && labels[r] == CallbackOk(id, v)
  }

  /** A GetOrSet that begins after a locked Delete never returns a value from before it: what it returns was
      produced by a callback started after the Delete took the lock. */
  lemma GetAfterDeleteIsFresh(c: Config, states: seq<State>, labels: seq<Label>, d: OpId, i: nat, j: nat, g: OpId, b: nat, k: nat)
      returns (id: OpId, o: nat, r: nat)
    requires IsRun(c, states, labels) && c.WriteBudget() <= c.lockTTL
    requires i < j < b < k <= |labels| && labels[i] == Obtain(d) && labels[j] == RedisDel(d) && labels[b] == Begin(g, GetOrSet)
    requires g in states[k].ops && states[k].ops[g].reply.Some? && states[k].ops[g].reply.value.Returned?
    ensures FreshValue(labels, i, states[k].ops[g].reply.value.value, id, o, r, k)
  {
    RunIsTraced(c, states, labels, k);
    assert OpTraced(states, labels, k, g, states[k].ops[g]);
    var reply := states[k].ops[g].reply.value;
    var m: nat :| m < k && AnsweredAt(states, labels, g, reply, m);
    assert Enabled(states[m], labels[m]);
    ActsAfterBegin(c, states, labels, g, b, m);
    if labels[m].CallbackOk? {
      RunIsTraced(c, states, labels, m);
      assert OpTraced(states, labels, m, g, states[m].ops[g]);
      id, o, r := g, states[m].ops[g].phase.origin, m;
      assert Enabled(states[o], labels[o]);
      ActsAfterBegin(c, states, labels, g, b, o);
    } else {
      var h, stored;
      id, h, r, stored := LockedDeleteStands(c, states, labels, d, i, j, m);
      o := states[m].entry.value.origin;
    }
  }

  // ---------------------------------------------------------------- who has the lock

  predicate Takes(l: Label) { l.Obtain? || l.ObtainLost? }

  /** The last call to take the lock before step `k` is `owner`, at step `h`, and it has not released it since, unless it
      never learned that it had it. */
  ghost predicate TakenAt(labels: seq<Label>, owner: OpId, h: nat, k: nat) {
    && h < k <= |labels| && labels[h] in {Obtain(owner), ObtainLost(owner)}
    && forall n :: h < n < k ==> !Takes(labels[n]) && (labels[n] == Release(owner) ==> labels[h].ObtainLost?)
  }

  lemma StepLock(c: Config, s: State, l: Label)
    requires Enabled(s, l)
    ensures Takes(l) ==> Next(c, s, l).lock == Some(LockRecord(l.id, s.now + c.lockTTL))
    ensures !Takes(l) ==>
              Next(c, s, l).lock == if l.Release? && s.ops[l.id].hold.Some? && s.lock.Some? && s.lock.value.owner == l.id then None else s.lock
  {
  }

  /** A lock record names the call that took it last, and that call has not released it since. */
  lemma {:induction false} LockIsTraced(c: Config, states: seq<State>, labels: seq<Label>, k: nat) returns (h: nat)
    requires IsRun(c, states, labels) && k <= |labels| && states[k].lock.Some?
    ensures TakenAt(labels, states[k].lock.value.owner, h, k)
  {
    StepLock(c, states[k - 1], labels[k - 1]);
    if Takes(labels[k - 1]) {
      h := k - 1;
    } else {
      h := LockIsTraced(c, states, labels, k - 1);
      LockStaysTraced(c, states, labels, h, k - 1);
    }
  }

  lemma LockStaysTraced(c: Config, states: seq<State>, labels: seq<Label>, h: nat, k: nat)
    requires IsRun(c, states, labels) && k < |labels| && !Takes(labels[k]) && states[k].lock.Some? && states[k + 1].lock == states[k].lock
    requires TakenAt(labels, states[k].lock.value.owner, h, k)
    ensures TakenAt(labels, states[k].lock.value.owner, h, k + 1)
  {
    var owner := states[k].lock.value.owner;
    if labels[k] == Release(owner) && labels[h].Obtain? {
      HoldKept(c, states, labels, owner, h, k);
      StepLock(c, states[k], labels[k]);
    }
  }

  // ---------------------------------------------------------------- how long the lock has to live

  /** No locked delete has been undone in `s`. */
  ghost predicate NoneUndone(s: State) {
    forall d :: d in s.ops && s.ops[d].deleted && s.ops[d].hold.Some? && s.entry.Some? ==>
      s.ops[d].hold.value.step < s.entry.value.origin
  }

  ghost predicate Safe(c: Config) {
    forall states, labels :: IsRun(c, states, labels) ==> NoneUndone(states[|labels|])
  }

  lemma Extend(c: Config, states: seq<State>, labels: seq<Label>, l: Label) returns (states': seq<State>, labels': seq<Label>)
    requires IsRun(c, states, labels) && Enabled(states[|labels|], l)
    ensures IsRun(c, states', labels') && labels' == labels + [l]
    ensures states'[|labels'|] == Next(c, states[|labels|], l)
  {
    states', labels' := states + [Next(c, states[|labels|], l)], labels + [l];
  }

  function SlowWriter(c: Config): State {
    var end := c.WriteBudget();
    State(end, 8, None, Some(LockRecord(0, c.lockTTL)),
          map[0 := Op(GetOrSet, Some(Hold(2, c.lockTTL)), Storing(end, 4, 7), false, Some(Returned(7)))])
  }

  lemma LockedFetchRun(c: Config) returns (states: seq<State>, labels: seq<Label>)
    ensures IsRun(c, states, labels) && |labels| == 3
    ensures states[3] == State(0, 3, None, Some(LockRecord(0, c.lockTTL)),
                               map[0 := Op(GetOrSet, Some(Hold(2, c.lockTTL)), Prepared(c.redisTimeout), false, None)])
  {
    states, labels := [INITIAL], [];
    states, labels := Extend(c, states, labels, Begin(0, GetOrSet));
    states, labels := Extend(c, states, labels, FastMiss(0));
    states, labels := Extend(c, states, labels, Obtain(0));
  }

  /** A fetch can use its whole budget before it stores. */
  lemma SlowWriterRun(c: Config) returns (states: seq<State>, labels: seq<Label>)
    ensures IsRun(c, states, labels) && |labels| == 8 && states[8] == SlowWriter(c) && labels[4] == StartCallback(0)
  {
    states, labels := LockedFetchRun(c);
    states, labels := Extend(c, states, labels, Tick(c.redisTimeout));
    states, labels := Extend(c, states, labels, StartCallback(0));
    states, labels := Extend(c, states, labels, Tick(c.refreshTimeout));
    states, labels := Extend(c, states, labels, CallbackOk(0, 7));
    states, labels := Extend(c, states, labels, Tick(c.redisTimeout));
  }

  /** With a shorter lock, a delete can get the lock and finish just before that store. */
  lemma ShortLockLosesDelete(c: Config) returns (states: seq<State>, labels: seq<Label>)
    requires c.lockTTL < c.WriteBudget()
    ensures IsRun(c, states, labels) && !NoneUndone(states[|labels|])
  {
    states, labels := SlowWriterRun(c);
    states, labels := Extend(c, states, labels, Begin(1, Delete));
    states, labels := Extend(c, states, labels, Obtain(1));
    states, labels := Extend(c, states, labels, RedisDel(1));
    states, labels := Extend(c, states, labels, Store(0));
    assert states[12].ops[1].deleted && states[12].ops[1].hold.value.step == 9;
    assert states[12].entry == Some(Entry(7, 4));
  }

  /** The lock keeps deletes from being undone exactly when it outlives the write budget. */
  lemma SafeIffLockCoversBudget(c: Config)
    ensures Safe(c) <==> c.WriteBudget() <= c.lockTTL
  {
    if c.WriteBudget() <= c.lockTTL {
      forall states, labels | IsRun(c, states, labels) ensures NoneUndone(states[|labels|]) {
        RunKeepsInv(c, states, labels, |labels|);
        var s: State := states[|labels|];
        forall d | d in s.ops && s.ops[d].deleted && s.ops[d].hold.Some? && s.entry.Some?
          ensures s.ops[d].hold.value.step < s.entry.value.origin
        {
          assert DeleteStands(s, s.ops[d]);
        }
      }
    } else {
      var states, labels := ShortLockLosesDelete(c);
    }
  }

  /** The timeouts are those asked for, or 30 and 2 seconds.  The TTL `NewRedisCache` computes is therefore enough,
      and any shorter one would not be. */
  lemma ComputedLockTTLIsTight(refreshTimeout: nat, redisTimeout: nat)
    ensures var c := NewConfig(refreshTimeout, redisTimeout);
            && (if refreshTimeout == 0 then c.refreshTimeout == 30_000 else c.refreshTimeout == refreshTimeout)
            && (if redisTimeout == 0 then c.redisTimeout == 2_000 else c.redisTimeout == redisTimeout)
    ensures var c := NewConfig(refreshTimeout, redisTimeout);
            Safe(c) && forall ttl: nat :: ttl < c.lockTTL ==> !Safe(c.(lockTTL := ttl))
  {
    var c := NewConfig(refreshTimeout, redisTimeout);
    SafeIffLockCoversBudget(c);
    forall ttl: nat | ttl < c.lockTTL ensures !Safe(c.(lockTTL := ttl)) {
      SafeIffLockCoversBudget(c.(lockTTL := ttl));
    }
  }

  /** A Delete that went ahead without the lock is best effort: a value fetched before it can return. */
  lemma UnlockedDeleteCanBeUndone(c: Config) returns (states: seq<State>, labels: seq<Label>, started: nat, deleted: nat)
    ensures IsRun(c, states, labels) && started < deleted < |labels|
    ensures labels[started].StartCallback? && labels[deleted].RedisDel?
    ensures states[|labels|].entry.Some? && states[|labels|].entry.value.origin == started
  {
    states, labels := SlowWriterRun(c);
    states, labels := Extend(c, states, labels, Begin(1, Delete));
    states, labels := Extend(c, states, labels, AcquireFail(1));
    states, labels := Extend(c, states, labels, RedisDel(1));
    states, labels := Extend(c, states, labels, Store(0));
    started, deleted := 4, 10;
  }
}
