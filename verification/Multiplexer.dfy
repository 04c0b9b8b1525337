/** The broadcast multiplexer: one goroutine forwards every source value to every consumer under the
    read lock, while Fork and remove change the consumer list under the write lock. */
module Multiplexer {
  import opened Wrappers

  type ConsumerId = nat

  /** `start` and `stop` count the broadcasts begun before the consumer was added and removed. */
  datatype Consumer<T> = Consumer(start: nat, stop: Option<nat>, received: seq<T>)

  /** `log` is every value whose broadcast has begun; `taken` is a value received from the source for
      which the read lock is not held yet; `cursor` is the position in `channels` of the next send, and
      is set exactly while the read lock is held. */
  datatype State<T> = State(log: seq<T>, taken: Option<T>, cursor: Option<nat>,
                            channels: seq<ConsumerId>, consumers: map<ConsumerId, Consumer<T>>)

  datatype Label<T> =
    | Take(v: T)
    | LockRead
    | Deliver
    | UnlockRead
    | Fork(c: ConsumerId)
    | Remove(c: ConsumerId)

  function Initial<T>(): State<T> { State([], None, None, [], map[]) }

  /** The list after the first occurrence of `c` is cut out. */
  function Without(channels: seq<ConsumerId>, c: ConsumerId): seq<ConsumerId> {
    if channels == [] then []
    else if channels[0] == c then channels[1..]
    else [channels[0]] + Without(channels[1..], c)
  }

  predicate Enabled<T>(s: State<T>, l: Label<T>) {
    match l
    case Take(_) => s.taken.None? && s.cursor.None?
    case LockRead => s.taken.Some? && s.cursor.None?
    case Deliver => s.cursor.Some? && s.log != [] && s.cursor.value < |s.channels| && s.channels[s.cursor.value] in s.consumers
    case UnlockRead => s.cursor.Some? && s.cursor.value == |s.channels|
    case Fork(c) => s.cursor.None? && c !in s.consumers
    case Remove(c) => s.cursor.None?
  }

  function Next<T>(s: State<T>, l: Label<T>): State<T>
    requires Enabled(s, l)
  {
    match l
    case Take(v) => s.(taken := Some(v))
    case LockRead => s.(log := s.log + [s.taken.value], taken := None, cursor := Some(0))
    case Deliver =>
      var c := s.channels[s.cursor.value];
      var got := s.consumers[c].(received := s.consumers[c].received + [s.log[|s.log| - 1]]);
      s.(cursor := Some(s.cursor.value + 1), consumers := s.consumers[c := got])
    case UnlockRead => s.(cursor := None)
    case Fork(c) => s.(channels := s.channels + [c], consumers := s.consumers[c := Consumer(|s.log|, None, [])])
    case Remove(c) =>
      if c in s.channels && c in s.consumers
      then s.(channels := Without(s.channels, c), consumers := s.consumers[c := s.consumers[c].(stop := Some(|s.log|))])
      else s
  }

  ghost predicate IsRun<T>(states: seq<State<T>>, labels: seq<Label<T>>) {
    && |states| == |labels| + 1 && states[0] == Initial()
    && forall i :: 0 <= i < |labels| ==> Enabled(states[i], labels[i]) && states[i + 1] == Next(states[i], labels[i])
  }

  // ---------------------------------------------------------------- the invariant

  ghost predicate Distinct(channels: seq<ConsumerId>) {
    forall i, j :: 0 <= i < j < |channels| ==> channels[i] != channels[j]
  }

  /** How far into the log the consumer at position `i` of the list has been served. */
  function Served<T>(s: State<T>, i: nat): nat
    requires s.cursor.Some? ==> s.log != []
  {
    if s.cursor.Some? && s.cursor.value <= i then |s.log| - 1 else |s.log|
  }

  /** The consumer at position `i` is subscribed and has received its run up to the cursor. */
  predicate LiveOk<T(==)>(s: State<T>, i: nat)
    requires i < |s.channels| && (s.cursor.Some? ==> s.log != [])
  {
    && s.channels[i] in s.consumers
    && var k := s.consumers[s.channels[i]];
       k.stop.None? && k.start <= Served(s, i) && k.received == s.log[k.start..Served(s, i)]
  }

  /** A removed consumer has received its whole run. */
  predicate GoneOk<T(==)>(log: seq<T>, k: Consumer<T>) {
    k.stop.Some? && k.start <= k.stop.value <= |log| && k.received == log[k.start..k.stop.value]
  }

  ghost predicate Inv<T>(s: State<T>) {
    && Distinct(s.channels)
    && (s.cursor.Some? ==> s.log != [] && s.cursor.value <= |s.channels|)
    && (forall i :: 0 <= i < |s.channels| ==> LiveOk(s, i))
    && (forall c :: c in s.consumers && c !in s.channels ==> GoneOk(s.log, s.consumers[c]))
  }

  lemma {:induction false} WithoutSpec(channels: seq<ConsumerId>, c: ConsumerId)
    requires Distinct(channels)
    ensures Distinct(Without(channels, c))
    ensures forall d :: d in Without(channels, c) <==> d in channels && d != c
  {
    if channels == [] {
    } else {
      var rest := Without(channels[1..], c);
      WithoutSpec(channels[1..], c);
      assert channels == [channels[0]] + channels[1..];
      if channels[0] != c {
        forall i | 0 <= i < |rest| ensures rest[i] != channels[0] {
          assert rest[i] in rest;
        }
      }
    }
  }

  /** Cutting out the first match is what the slice expression of `remove` does. */
  lemma {:induction false} WithoutAt(channels: seq<ConsumerId>, c: ConsumerId, i: nat)
    requires i < |channels| && channels[i] == c && c !in channels[..i]
    ensures Without(channels, c) == channels[..i] + channels[i + 1..]
  {
    if i == 0 {
    } else {
      assert channels[0] in channels[..i];
      assert channels[1..][..i - 1] == channels[1..i];
      assert forall d :: d in channels[1..i] ==> d in channels[..i];
      WithoutAt(channels[1..], c, i - 1);
    }
  }

  lemma DeliverKeepsInv<T>(s: State<T>)
    requires Inv(s) && Enabled(s, Deliver)
    ensures Inv(Next(s, Deliver))
  {
    var s', at := Next(s, Deliver), s.cursor.value;
    forall i | 0 <= i < |s'.channels| ensures LiveOk(s', i) {
      assert LiveOk(s, i) && LiveOk(s, at);
      var k := s.consumers[s.channels[i]];
      if i == at {
        assert s.log[k.start..|s.log| - 1] + [s.log[|s.log| - 1]] == s.log[k.start..|s.log|];
      }
    }
  }

  lemma RemoveKeepsInv<T>(s: State<T>, c: ConsumerId)
    requires Inv(s) && Enabled(s, Remove(c))
    ensures Inv(Next(s, Remove(c)))
  {
    WithoutSpec(s.channels, c);
    var s' := Next(s, Remove(c));
    if c in s.channels {
      var at :| 0 <= at < |s.channels| && s.channels[at] == c;
      assert LiveOk(s, at);
      forall i | 0 <= i < |s'.channels| ensures LiveOk(s', i) {
        assert s'.channels[i] in s'.channels;
        var j :| 0 <= j < |s.channels| && s.channels[j] == s'.channels[i];
        assert LiveOk(s, j);
      }
      forall d | d in s'.consumers && d !in s'.channels ensures GoneOk(s'.log, s'.consumers[d]) {
        if d != c { assert GoneOk(s.log, s.consumers[d]); }
      }
    }
  }

  lemma LockReadKeepsInv<T>(s: State<T>)
    requires Inv(s) && Enabled(s, LockRead)
    ensures Inv(Next(s, LockRead))
  {
    var s' := Next(s, LockRead);
    forall i | 0 <= i < |s'.channels| ensures LiveOk(s', i) {
      assert LiveOk(s, i);
      var k := s.consumers[s.channels[i]];
      assert s'.log[k.start..|s.log|] == s.log[k.start..|s.log|];
    }
    forall c | c in s'.consumers && c !in s'.channels ensures GoneOk(s'.log, s'.consumers[c]) {
      var k := s.consumers[c];
      assert GoneOk(s.log, k);
      assert s'.log[k.start..k.stop.value] == s.log[k.start..k.stop.value];
    }
  }

  lemma ForkKeepsInv<T>(s: State<T>, c: ConsumerId)
    requires Inv(s) && Enabled(s, Fork(c))
    ensures Inv(Next(s, Fork(c)))
  {
    var s' := Next(s, Fork(c));
    forall i | 0 <= i < |s.channels| ensures s.channels[i] != c { assert LiveOk(s, i); }
    forall i | 0 <= i < |s'.channels| ensures LiveOk(s', i) {
      if i < |s.channels| { assert LiveOk(s, i); }
    }
    forall d | d in s'.consumers && d !in s'.channels ensures GoneOk(s'.log, s'.consumers[d]) {
      assert s'.channels[|s.channels|] == c;
      assert d in s.consumers && d !in s.channels;
    }
  }

  lemma QuietKeepsInv<T>(s: State<T>, l: Label<T>)
    requires Inv(s) && Enabled(s, l) && (l.Take? || l.UnlockRead?)
    ensures Inv(Next(s, l))
  {
    var s' := Next(s, l);
    forall i | 0 <= i < |s'.channels| ensures LiveOk(s', i) {
      assert LiveOk(s, i);
    }
  }

  lemma StepKeepsInv<T>(s: State<T>, l: Label<T>)
    requires Inv(s) && Enabled(s, l)
    ensures Inv(Next(s, l))
  {
    match l
    case Deliver => DeliverKeepsInv(s);
    case Remove(c) => RemoveKeepsInv(s, c);
    case LockRead => LockReadKeepsInv(s);
    case Fork(c) => ForkKeepsInv(s, c);
    case Take(v) => QuietKeepsInv(s, l);
    case UnlockRead => QuietKeepsInv(s, l);
  }

  lemma {:induction false} RunKeepsInv<T>(states: seq<State<T>>, labels: seq<Label<T>>, k: nat)
    requires IsRun(states, labels) && k <= |labels|
    ensures Inv(states[k])
  {
    if k == 0 {
    } else {
      RunKeepsInv(states, labels, k - 1);
      StepKeepsInv(states[k - 1], labels[k - 1]);
    }
  }

  // ---------------------------------------------------------------- what consumers receive

  /** A consumer's start never changes, and after its removal nothing about it does. */
  predicate SameConsumer<T(==)>(a: Consumer<T>, b: Consumer<T>) {
    a.start == b.start && (a.stop.Some? ==> b == a)
  }

  lemma StepFixesConsumer<T>(s: State<T>, l: Label<T>, s': State<T>, c: ConsumerId)
    requires Inv(s) && Enabled(s, l) && s' == Next(s, l)
    ensures s.log <= s'.log
    ensures c in s.consumers ==> c in s'.consumers && SameConsumer(s.consumers[c], s'.consumers[c])
  {
    if l.Deliver? { assert LiveOk(s, s.cursor.value); }
    if l.Remove? && c == l.c && c in s.channels {
      var at :| 0 <= at < |s.channels| && s.channels[at] == c;
      assert LiveOk(s, at);
    }
  }

  lemma {:induction false} ConsumerFixed<T>(states: seq<State<T>>, labels: seq<Label<T>>, c: ConsumerId, i: nat, k: nat)
    requires IsRun(states, labels) && i <= k <= |labels|
    ensures states[i].log <= states[k].log
    ensures c in states[i].consumers ==> c in states[k].consumers && SameConsumer(states[i].consumers[c], states[k].consumers[c])
    decreases k
  {
    if i == k {
    } else {
      ConsumerFixed(states, labels, c, i, k - 1);
      RunKeepsInv(states, labels, k - 1);
      StepFixesConsumer(states[k - 1], labels[k - 1], states[k], c);
    }
  }

  /** The values received from the source, in order. */
  function Taken<T>(labels: seq<Label<T>>): seq<T> {
    if labels == [] then []
    else Taken(labels[..|labels| - 1]) + if labels[|labels| - 1].Take? then [labels[|labels| - 1].v] else []
  }

  /** How many broadcasts have begun. */
  function Begun<T>(labels: seq<Label<T>>): nat {
    if labels == [] then 0 else Begun(labels[..|labels| - 1]) + if labels[|labels| - 1].LockRead? then 1 else 0
  }

  /** A value received whose broadcast has not begun. */
  function Pending<T>(s: State<T>): seq<T> { if s.taken.Some? then [s.taken.value] else [] }

  lemma StepSource<T>(s: State<T>, l: Label<T>)
    requires Enabled(s, l)
    ensures Next(s, l).log + Pending(Next(s, l)) == s.log + Pending(s) + if l.Take? then [l.v] else []
    ensures |Next(s, l).log| == |s.log| + if l.LockRead? then 1 else 0
  {
  }

  /** In every run the log, with a value still pending, is exactly what came from the source. */
  lemma {:induction false} SourceIsLogged<T>(states: seq<State<T>>, labels: seq<Label<T>>, k: nat)
    requires IsRun(states, labels) && k <= |labels|
    ensures states[k].log + Pending(states[k]) == Taken(labels[..k]) && |states[k].log| == Begun(labels[..k])
  {
    if k == 0 {
    } else {
      SourceIsLogged(states, labels, k - 1);
      StepSource(states[k - 1], labels[k - 1]);
      assert labels[..k][..k - 1] == labels[..k - 1];
    }
  }

  /** A consumer forked at step `f` and still subscribed at step `k` has received exactly the values taken from the
      source whose broadcast began since, except the last one while it is still to be served: in order, without gap
      or repeat. */
  lemma LiveConsumerReceivesRun<T>(states: seq<State<T>>, labels: seq<Label<T>>, c: ConsumerId, f: nat, k: nat) returns (i: nat)
    requires IsRun(states, labels) && f < k <= |labels| && labels[f] == Fork(c) && c in states[k].channels
    ensures i < |states[k].channels| && states[k].channels[i] == c && c in states[k].consumers
    ensures var waits := states[k].cursor.Some? && states[k].cursor.value <= i;
            var end := Begun(labels[..k]) - if waits then 1 else 0;
            && Begun(labels[..f]) <= end <= |Taken(labels[..k])|
            && states[k].consumers[c].received == Taken(labels[..k])[Begun(labels[..f])..end]
  {
    RunKeepsInv(states, labels, k);
    SourceIsLogged(states, labels, f);
    SourceIsLogged(states, labels, k);
    assert Enabled(states[f], labels[f]);
    ConsumerFixed(states, labels, c, f + 1, k);
    i :| 0 <= i < |states[k].channels| && states[k].channels[i] == c;
    assert LiveOk(states[k], i);
  }

  /** A consumer forked at step `f` and removed at step `r` ends up with exactly the values taken from the source
      whose broadcast began in between, whatever happens afterwards. */
  lemma RemovedConsumerReceivedRun<T>(states: seq<State<T>>, labels: seq<Label<T>>, c: ConsumerId, f: nat, r: nat, k: nat)
    requires IsRun(states, labels) && f < r < k <= |labels| && labels[f] == Fork(c) && labels[r] == Remove(c)
    requires c in states[r].channels
    ensures c in states[k].consumers && c !in states[r + 1].channels
    ensures Begun(labels[..f]) <= Begun(labels[..r]) <= |Taken(labels[..r])|
    ensures states[k].consumers[c].received == Taken(labels[..r])[Begun(labels[..f])..Begun(labels[..r])]
  {
    var i := LiveConsumerReceivesRun(states, labels, c, f, r);
    assert Enabled(states[r], labels[r]);
    WithoutSpec(states[r].channels, c) by { RunKeepsInv(states, labels, r); }
    ConsumerFixed(states, labels, c, r + 1, k);
  }

  /** Removing one consumer leaves every other subscription and its deliveries as they were. */
  lemma RemoveLeavesOthers<T>(s: State<T>, c: ConsumerId, d: ConsumerId)
    requires Inv(s) && Enabled(s, Remove(c)) && d != c
    ensures var s' := Next(s, Remove(c));
            && c !in s'.channels && (d in s'.channels <==> d in s.channels)
            && (d in s.consumers ==> d in s'.consumers && s'.consumers[d] == s.consumers[d])
            && s'.log == s.log && s'.taken == s.taken
  {
    WithoutSpec(s.channels, c);
    if c in s.channels {
      var at :| 0 <= at < |s.channels| && s.channels[at] == c;
      assert LiveOk(s, at);
    }
  }

  // ---------------------------------------------------------------- the object itself

  /** All sends of a broadcast, then the unlock. */
  function DeliverRest<T>(s: State<T>): State<T>
    requires Inv(s) && s.cursor.Some?
    decreases |s.channels| - s.cursor.value
  {
    if s.cursor.value == |s.channels| then Next(s, UnlockRead)
    else
      assert LiveOk(s, s.cursor.value);
      StepKeepsInv(s, Deliver);
      DeliverRest(Next(s, Deliver))
  }

  lemma DeliverNext<T>(s: State<T>)
    requires Inv(s) && s.cursor.Some? && s.cursor.value < |s.channels|
    ensures Enabled(s, Deliver) && Inv(Next(s, Deliver)) && DeliverRest(Next(s, Deliver)) == DeliverRest(s)
  {
    assert LiveOk(s, s.cursor.value);
    StepKeepsInv(s, Deliver);
  }

  /** Each listed consumer has got `v` on top of what it had, and the others nothing. */
  ghost predicate AllServed<T>(before: map<ConsumerId, Consumer<T>>, listed: seq<ConsumerId>, v: T, after: map<ConsumerId, Consumer<T>>) {
    && after.Keys == before.Keys
    && forall c :: c in before ==>
         after[c] == if c in listed then before[c].(received := before[c].received + [v]) else before[c]
  }

  lemma ServeOneMore<T>(s: State<T>, after: map<ConsumerId, Consumer<T>>)
    requires Inv(s) && Enabled(s, Deliver)
    requires AllServed(Next(s, Deliver).consumers, s.channels[s.cursor.value + 1..], s.log[|s.log| - 1], after)
    ensures AllServed(s.consumers, s.channels[s.cursor.value..], s.log[|s.log| - 1], after)
  {
    var i := s.cursor.value;
    assert s.channels[i..] == [s.channels[i]] + s.channels[i + 1..];
    assert s.channels[i] !in s.channels[i + 1..];
  }

  lemma {:induction false} DeliverRestServes<T>(s: State<T>)
    requires Inv(s) && s.cursor.Some?
    ensures var s' := DeliverRest(s);
            && s'.log == s.log && s'.channels == s.channels && s'.taken == s.taken && s'.cursor.None?
            && AllServed(s.consumers, s.channels[s.cursor.value..], s.log[|s.log| - 1], s'.consumers)
    decreases |s.channels| - s.cursor.value
  {
    if s.cursor.value == |s.channels| {
    } else {
      DeliverNext(s);
      DeliverRestServes(Next(s, Deliver));
      ServeOneMore(s, DeliverRest(s).consumers);
    }
  }

  class MultiplexedChannel<T> {
    var channels: seq<ConsumerId>
    ghost var log: seq<T>
    ghost var cursor: Option<nat>
    ghost var consumers: map<ConsumerId, Consumer<T>>

    ghost function View(): State<T>
      reads this
    {
      State(log, None, cursor, channels, consumers)
    }

    constructor ()
      ensures View() == Initial()
    {
      channels := [];
      log, cursor, consumers := [], None, map[];
    }

    method ForkConsumer(c: ConsumerId)
      requires Enabled(View(), Fork(c))
      modifies this
      ensures View() == Next(old(View()), Fork(c))
      ensures channels == old(channels) + [c] && c in consumers && consumers[c].received == []
    {
      channels := channels + [c];
      consumers := consumers[c := Consumer(|log|, None, [])];
    }

    /** The search loop of `remove`, which cuts the first match out of the list. */
    method RemoveConsumer(c: ConsumerId)
      requires Enabled(View(), Remove(c)) && Inv(View())
      modifies this
      ensures View() == Next(old(View()), Remove(c)) && Inv(View())
    {
      RemoveKeepsInv(View(), c);
      for i := 0 to |channels|
        invariant unchanged(this) && c !in channels[..i]
      {
        if channels[i] == c {
          assert LiveOk(View(), i);
          WithoutAt(channels, c, i);
          channels := channels[..i] + channels[i + 1..];
          consumers := consumers[c := consumers[c].(stop := Some(|log|))];
          return;
        }
      }
    }

    /** One iteration of the forwarding goroutine: read lock, one send per consumer, unlock. */
    method Broadcast(v: T)
      requires Inv(View()) && cursor.None?
      modifies this
      ensures Inv(View()) && cursor.None?
      ensures log == old(log) + [v] && channels == old(channels) && AllServed(old(consumers), channels, v, consumers)
      ensures var taken := old(View()).(taken := Some(v));
              Inv(Next(taken, LockRead)) && View() == DeliverRest(Next(taken, LockRead))
    {
      StepKeepsInv(View(), Take(v));
      StepKeepsInv(View().(taken := Some(v)), LockRead);
      log, cursor := log + [v], Some(0);
      ghost var locked := View();
      assert log[|log| - 1] == v;
      for i := 0 to |channels|
        invariant cursor == Some(i) && Inv(View()) && channels == old(channels) && log == old(log) + [v]
        invariant DeliverRest(View()) == DeliverRest(locked)
      {
        ghost var before := View();
        DeliverNext(before);
        var c := channels[i];
        cursor := Some(i + 1);
        consumers := consumers[c := consumers[c].(received := consumers[c].received + [v])];
        assert View() == Next(before, Deliver);
      }
      StepKeepsInv(View(), UnlockRead);
      cursor := None;
      DeliverRestServes(locked);
      assert channels[0..] == channels;
    }
  }
}
