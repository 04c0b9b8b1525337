/** The Start and Connect event streams: one goroutine that sends a start event, then data and
    keepalives while its data subscription is open, then the end event. */
module ProcessStream {
  import M = Multiplexer

  type Event = nat

  datatype Mode = StartMode | ConnectMode

  datatype Message = Start(pid: nat) | Data(event: Event) | Keepalive | End(event: Event)

  datatype Phase = AwaitStart | DataLoop | AwaitEnd | Exited

  /** `received` is what the data subscription handed over; `closed` that it was seen closed. */
  datatype Stream = Stream(mode: Mode, phase: Phase, sent: seq<Message>, received: seq<Event>, closed: bool)

  /** What a select picks, with whether the send that follows succeeds. */
  datatype Choice =
    | CtxDone
    | StartEvent(pid: nat, sends: bool)
    | StartClosed
    | Tick(sends: bool)
    | DataEvent(event: Event, sends: bool)
    | DataClosed
    | EndEvent(event: Event, sends: bool)
    | EndClosed

  /** Connect sends its start event itself, before it starts to listen. */
  predicate Selectable(s: Stream, c: Choice) {
    match s.phase
    case AwaitStart => c.StartEvent? || (s.mode.StartMode? && (c.CtxDone? || c.StartClosed?))
    case DataLoop => c.Tick? || c.CtxDone? || c.DataEvent? || c.DataClosed?
    case AwaitEnd => c.CtxDone? || c.EndEvent? || c.EndClosed?
    case Exited => false
  }

  function Send(s: Stream, m: Message, sends: bool, phase: Phase): Stream {
    if sends then s.(sent := s.sent + [m], phase := phase) else s.(phase := Exited)
  }

  function Next(s: Stream, c: Choice): Stream
    requires Selectable(s, c)
  {
    match c
    case CtxDone => s.(phase := Exited)
    case StartEvent(pid, sends) => Send(s, Start(pid), sends, DataLoop)
    case StartClosed => s.(phase := Exited)
    case Tick(sends) => Send(s, Keepalive, sends, DataLoop)
    case DataEvent(e, sends) => Send(s.(received := s.received + [e]), Data(e), sends, DataLoop)
    case DataClosed => s.(phase := AwaitEnd, closed := true)
    case EndEvent(e, sends) => Send(s, End(e), sends, Exited)
    case EndClosed => s.(phase := Exited)
  }

  function Initial(mode: Mode): Stream { Stream(mode, AwaitStart, [], [], false) }

  /** A run driven by what the channels, the timer and the context offer; offers that the current
      select does not listen to stay unread. */
  function Run(s: Stream, offers: seq<Choice>): Stream
    decreases |offers|
  {
    if offers == [] then s
    else Run(if Selectable(s, offers[0]) then Next(s, offers[0]) else s, offers[1..])
  }

  // ---------------------------------------------------------------- the message grammar

  predicate Middle(m: Message) { m.Data? || m.Keepalive? }

  /** Start (Data | Keepalive)* End */
  ghost predicate InLanguage(w: seq<Message>) {
    && |w| >= 2 && w[0].Start? && w[|w| - 1].End?
    && forall i :: 0 < i < |w| - 1 ==> Middle(w[i])
  }

  ghost predicate Grammatical(sent: seq<Message>) {
    exists w :: InLanguage(w) && sent <= w
  }

  /** The events of the data messages, in order. */
  function DataOf(sent: seq<Message>): seq<Event> {
    if sent == [] then []
    else DataOf(sent[..|sent| - 1]) + if sent[|sent| - 1].Data? then [sent[|sent| - 1].event] else []
  }

  predicate EndSent(s: Stream) { s.sent != [] && s.sent[|s.sent| - 1].End? }

  ghost predicate Inv(s: Stream) {
    && (s.phase.AwaitStart? ==> s.sent == [] && s.received == [] && !s.closed)
    && (s.phase.AwaitEnd? ==> s.closed)
    && (s.phase.DataLoop? || s.phase.AwaitEnd? ==> s.sent != [] && !EndSent(s))
    && (s.sent != [] ==> s.sent[0].Start? && (EndSent(s) ==> |s.sent| >= 2))
    && (forall i :: 0 < i < |s.sent| - 1 ==> Middle(s.sent[i]))
    && (|s.sent| > 1 ==> Middle(s.sent[|s.sent| - 1]) || EndSent(s))
    && DataOf(s.sent) <= s.received
    && (s.phase.DataLoop? || s.phase.AwaitEnd? || EndSent(s) ==> DataOf(s.sent) == s.received)
    && (EndSent(s) ==> s.closed && s.phase.Exited?)
  }

  lemma DataOfSnoc(sent: seq<Message>, m: Message)
    ensures DataOf(sent + [m]) == DataOf(sent) + if m.Data? then [m.event] else []
  {
    assert (sent + [m])[..|sent|] == sent;
  }

  lemma SentMiddle(s: Stream, m: Message)
    requires Inv(s) && s.phase.DataLoop? && Middle(m)
    ensures Inv(s.(sent := s.sent + [m], received := s.received + if m.Data? then [m.event] else []))
  {
    DataOfSnoc(s.sent, m);
  }

  lemma SentEnd(s: Stream, e: Event)
    requires Inv(s) && s.phase.AwaitEnd?
    ensures Inv(s.(sent := s.sent + [End(e)], phase := Exited))
  {
    DataOfSnoc(s.sent, End(e));
  }

  lemma SentStart(s: Stream, pid: nat)
    requires Inv(s) && s.phase.AwaitStart?
    ensures Inv(s.(sent := s.sent + [Start(pid)], phase := DataLoop))
  {
    DataOfSnoc(s.sent, Start(pid));
  }

  /** Leaving early, whatever was received last, keeps what was sent. */
  lemma GaveUp(s: Stream, received: seq<Event>)
    requires Inv(s) && !s.phase.Exited? && s.received <= received
    ensures Inv(s.(received := received, phase := Exited))
  {
  }

  lemma SubscriptionClosed(s: Stream)
    requires Inv(s) && s.phase.DataLoop?
    ensures Inv(s.(phase := AwaitEnd, closed := true))
  {
  }

  /** Whether the choice leads to a successful send. */
  predicate Sends(c: Choice) {
    (c.StartEvent? || c.Tick? || c.DataEvent? || c.EndEvent?) && c.sends
  }

  lemma StepKeepsInv(s: Stream, c: Choice)
    requires Inv(s) && Selectable(s, c)
    ensures Inv(Next(s, c))
  {
    if c.DataClosed? {
      SubscriptionClosed(s);
    } else if !Sends(c) {
      GaveUp(s, if c.DataEvent? then s.received + [c.event] else s.received);
    } else if c.StartEvent? {
      SentStart(s, c.pid);
    } else if c.Tick? {
      SentMiddle(s, Keepalive);
      assert s.received + [] == s.received;
    } else if c.DataEvent? {
      SentMiddle(s, Data(c.event));
    } else {
      SentEnd(s, c.event);
    }
  }

  lemma {:induction false} RunKeepsInv(s: Stream, offers: seq<Choice>)
    requires Inv(s)
    ensures Inv(Run(s, offers))
    decreases |offers|
  {
    if offers == [] {
    } else {
      if Selectable(s, offers[0]) {
        StepKeepsInv(s, offers[0]);
        RunKeepsInv(Next(s, offers[0]), offers[1..]);
      } else {
        RunKeepsInv(s, offers[1..]);
      }
    }
  }

  lemma InvIsGrammatical(s: Stream)
    requires Inv(s)
    ensures Grammatical(s.sent)
  {
    var w := if EndSent(s) then s.sent else if s.sent == [] then [Start(0), End(0)] else s.sent + [End(0)];
    assert InLanguage(w) && s.sent <= w;
  }

  /** Every run, however it is cut short, has sent a prefix of the grammar; and an End was sent only
      after the subscription closed and every event received from it had been sent, in order. */
  lemma StreamGrammar(mode: Mode, offers: seq<Choice>)
    ensures var s := Run(Initial(mode), offers);
            && Grammatical(s.sent)
            && (EndSent(s) ==> s.closed && DataOf(s.sent) == s.received)
            && DataOf(s.sent) <= s.received
  {
    RunKeepsInv(Initial(mode), offers);
    InvIsGrammatical(Run(Initial(mode), offers));
  }

  // ---------------------------------------------------------------- what is sent, in terms of what was offered

  /** The offers the selects picked, in order. */
  function Picked(s: Stream, offers: seq<Choice>): seq<Choice>
    decreases |offers|
  {
    if offers == [] then []
    else if Selectable(s, offers[0]) then [offers[0]] + Picked(Next(s, offers[0]), offers[1..])
    else Picked(s, offers[1..])
  }

  /** The message a pick leads to. */
  function MessageOf(c: Choice): seq<Message> {
    match c
    case StartEvent(pid, true) => [Start(pid)]
    case Tick(true) => [Keepalive]
    case DataEvent(e, true) => [Data(e)]
    case EndEvent(e, true) => [End(e)]
    case _ => []
  }

  function Messages(picks: seq<Choice>): seq<Message> {
    if picks == [] then [] else MessageOf(picks[0]) + Messages(picks[1..])
  }

  /** The stream goes on after this pick. */
  predicate Continues(c: Choice) {
    c.DataClosed? || ((c.StartEvent? || c.Tick? || c.DataEvent?) && c.sends)
  }

  /** What a lawful sequence of picks looks like from a given phase on: at most one start, then data and ticks until the
      subscription closes, then the end; nothing after a failed send, an early close or the end of the context. */
  predicate Lawful(mode: Mode, phase: Phase, picks: seq<Choice>)
    decreases |picks|
  {
    if picks == [] then true
    else
      var c, rest := picks[0], picks[1..];
      match phase
      case AwaitStart =>
        if c.StartEvent? && c.sends then Lawful(mode, DataLoop, rest)
        else rest == [] && (c.StartEvent? || (mode.StartMode? && (c.CtxDone? || c.StartClosed?)))
      case DataLoop =>
        if c.DataClosed? then Lawful(mode, AwaitEnd, rest)
        else if Continues(c) then !c.StartEvent? && Lawful(mode, DataLoop, rest)
        else rest == [] && (c.Tick? || c.CtxDone? || c.DataEvent?)
      case AwaitEnd => rest == [] && (c.CtxDone? || c.EndEvent? || c.EndClosed?)
      case Exited => false
  }

  lemma {:induction false} PicksOfExited(s: Stream, offers: seq<Choice>)
    requires s.phase.Exited?
    ensures Picked(s, offers) == [] && Run(s, offers) == s
    decreases |offers|
  {
    if offers == [] {
    } else {
      PicksOfExited(s, offers[1..]);
    }
  }

  lemma StepSends(s: Stream, c: Choice)
    requires Selectable(s, c)
    ensures Next(s, c).sent == s.sent + MessageOf(c) && Next(s, c).mode == s.mode
    ensures Next(s, c).phase.Exited? <==> !Continues(c)
    ensures Next(s, c).received == s.received + if c.DataEvent? then [c.event] else []
  {
  }

  /** From any state the messages sent are exactly those of the picks, and the picks are lawful. */
  lemma {:induction false} RunSends(s: Stream, offers: seq<Choice>)
    ensures Run(s, offers).sent == s.sent + Messages(Picked(s, offers))
    ensures Lawful(s.mode, s.phase, Picked(s, offers))
    decreases |offers|
  {
    if offers == [] {
    } else if Selectable(s, offers[0]) {
      var c, s', rest := offers[0], Next(s, offers[0]), Picked(Next(s, offers[0]), offers[1..]);
      RunSends(s', offers[1..]);
      StepSends(s, c);
      assert ([c] + rest)[1..] == rest;
      if s'.phase.Exited? { PicksOfExited(s', offers[1..]); }
    } else {
      RunSends(s, offers[1..]);
    }
  }

  /** After any run, the select listens to exactly the choices that may lawfully come next. */
  lemma {:induction false} ListensLawfully(s: Stream, offers: seq<Choice>, c: Choice)
    ensures Selectable(Run(s, offers), c) <==> Lawful(s.mode, s.phase, Picked(s, offers) + [c])
    decreases |offers|
  {
    if offers == [] {
      assert Picked(s, offers) + [c] == [c];
    } else if Selectable(s, offers[0]) {
      var o, s', rest := offers[0], Next(s, offers[0]), Picked(Next(s, offers[0]), offers[1..]);
      ListensLawfully(s', offers[1..], c);
      StepSends(s, o);
      assert Picked(s, offers) + [c] == [o] + (rest + [c]) && ([o] + (rest + [c]))[1..] == rest + [c];
      if s'.phase.Exited? { PicksOfExited(s', offers[1..]); }
    } else {
      ListensLawfully(s, offers[1..], c);
    }
  }

  lemma {:induction false} PickedSnoc(s: Stream, offers: seq<Choice>, c: Choice)
    ensures Picked(s, offers + [c]) == Picked(s, offers) + if Selectable(Run(s, offers), c) then [c] else []
    decreases |offers|
  {
    var more := offers + [c];
    if offers == [] {
      assert more[1..] == [];
    } else {
      assert more[1..] == offers[1..] + [c];
      PickedSnoc(if Selectable(s, offers[0]) then Next(s, offers[0]) else s, offers[1..], c);
    }
  }

  /** Every run on its offers alone: the picks are a lawful sequence, an offer is picked exactly when it may lawfully
      come next, and the messages sent are those of the picks, with the pid and the events that were offered. */
  lemma StreamFollowsOffers(mode: Mode, offers: seq<Choice>, c: Choice)
    ensures var picks := Picked(Initial(mode), offers);
            && Run(Initial(mode), offers).sent == Messages(picks) && Lawful(mode, AwaitStart, picks)
            && Picked(Initial(mode), []) == []
            && Picked(Initial(mode), offers + [c]) == picks + if Lawful(mode, AwaitStart, picks + [c]) then [c] else []
  {
    RunSends(Initial(mode), offers);
    ListensLawfully(Initial(mode), offers, c);
    PickedSnoc(Initial(mode), offers, c);
  }

  lemma {:induction false} PickWasOffered(s: Stream, offers: seq<Choice>, c: Choice)
    requires c in Picked(s, offers)
    ensures c in offers
    decreases |offers|
  {
    if Selectable(s, offers[0]) && c != offers[0] {
      PickWasOffered(Next(s, offers[0]), offers[1..], c);
    } else if c != offers[0] {
      PickWasOffered(s, offers[1..], c);
    }
  }

  lemma {:induction false} MessageWasPicked(picks: seq<Choice>, m: Message) returns (c: Choice)
    requires m in Messages(picks)
    ensures c in picks && MessageOf(c) == [m]
  {
    if m in MessageOf(picks[0]) {
      c := picks[0];
    } else {
      c := MessageWasPicked(picks[1..], m);
    }
  }

  /** The offer that carries a message's content. */
  function OfferFor(m: Message): Choice {
    match m
    case Start(pid) => StartEvent(pid, true)
    case Data(e) => DataEvent(e, true)
    case Keepalive => Tick(true)
    case End(e) => EndEvent(e, true)
  }

  /** Each message sent was offered, with its content: the end event, the pid and the data. */
  lemma SentWasOffered(mode: Mode, offers: seq<Choice>, m: Message)
    requires m in Run(Initial(mode), offers).sent
    ensures OfferFor(m) in offers
  {
    RunSends(Initial(mode), offers);
    var c := MessageWasPicked(Picked(Initial(mode), offers), m);
    PickWasOffered(Initial(mode), offers, c);
  }

  // ---------------------------------------------------------------- the goroutine

  lemma RunSkips(s: Stream, offers: seq<Choice>, i: nat)
    requires i < |offers| && !Selectable(s, offers[i])
    ensures Run(s, offers[i..]) == Run(s, offers[i + 1..])
  {
    assert offers[i..][1..] == offers[i + 1..];
  }

  lemma RunTakes(s: Stream, offers: seq<Choice>, i: nat)
    requires i < |offers| && Selectable(s, offers[i])
    ensures Run(s, offers[i..]) == Run(Next(s, offers[i]), offers[i + 1..])
  {
    assert offers[i..][1..] == offers[i + 1..];
  }

  lemma {:induction false} RunStays(s: Stream, offers: seq<Choice>)
    requires s.phase.Exited?
    ensures Run(s, offers) == s
  {
    if offers == [] {
    } else {
      RunStays(s, offers[1..]);
    }
  }

  /** Blocks in the current select until one of its channels has something. */
  method Select(s: Stream, offers: seq<Choice>, from: nat) returns (i: nat)
    requires from <= |offers|
    ensures from <= i <= |offers| && (i < |offers| ==> Selectable(s, offers[i]))
    ensures Run(s, offers[from..]) == Run(s, offers[i..])
    ensures i == |offers| ==> Run(s, offers[from..]) == s
  {
    i := from;
    while i < |offers| && !Selectable(s, offers[i])
      invariant from <= i <= |offers|
      invariant Run(s, offers[from..]) == Run(s, offers[i..])
    {
      RunSkips(s, offers, i);
      i := i + 1;
    }
  }

  /** The goroutine of `handleStart`, and `handleConnect` with its leading send: three phases, each
      leaving early when the context ends, a channel closes too soon or a send fails. */
  method HandleStream(mode: Mode, offers: seq<Choice>) returns (s: Stream)
    ensures s == Run(Initial(mode), offers)
    ensures Inv(s) && s.sent == Messages(Picked(Initial(mode), offers))
  {
    RunKeepsInv(Initial(mode), offers);
    RunSends(Initial(mode), offers);
    s := Initial(mode);
    var i := Select(s, offers, 0);
    assert offers[0..] == offers;
    if i == |offers| {
      return;
    }
    RunTakes(s, offers, i);
    if !(offers[i].StartEvent? && offers[i].sends) {
      s := s.(phase := Exited);
      RunStays(s, offers[i + 1..]);
      return;
    }
    s := s.(sent := s.sent + [Start(offers[i].pid)], phase := DataLoop);
    i := i + 1;
    while s.phase.DataLoop?
      invariant i <= |offers| && (s.phase.DataLoop? || s.phase.AwaitEnd?)
      invariant Run(s, offers[i..]) == Run(Initial(mode), offers)
      decreases |offers| - i, if s.phase.DataLoop? then 1 else 0
    {
      i := Select(s, offers, i);
      if i == |offers| {
        return;
      }
      RunTakes(s, offers, i);
      var c := offers[i];
      if c.Tick? && c.sends {
        s := s.(sent := s.sent + [Keepalive]);
      } else if c.DataClosed? {
        s := s.(phase := AwaitEnd, closed := true);
      } else {
        if c.DataEvent? {
          s := s.(received := s.received + [c.event]);
        }
        if !(c.DataEvent? && c.sends) {
          s := s.(phase := Exited);
          RunStays(s, offers[i + 1..]);
          return;
        }
        s := s.(sent := s.sent + [Data(c.event)]);
      }
      i := i + 1;
    }
    i := Select(s, offers, i);
    if i == |offers| {
      return;
    }
    RunTakes(s, offers, i);
    if offers[i].EndEvent? && offers[i].sends {
      s := s.(sent := s.sent + [End(offers[i].event)]);
    }
    s := s.(phase := Exited);
    RunStays(s, offers[i + 1..]);
  }

  // ---------------------------------------------------------------- a stream fed by the multiplexer

  /** One stream subscribed to a multiplexer as consumer `me`; `drained` once the source is closed and
      every value taken from it has been broadcast, and `listed` if the subscription was still there then,
      so that the closing loop closes it. */
  datatype Feed = Feed(mux: M.State<Event>, stream: Stream, me: M.ConsumerId, drained: bool, listed: bool)

  datatype FeedLabel =
    | Mux(l: M.Label<Event>)
    | Receive(sends: bool)
    | Pick(c: Choice)
    | Drain

  /** The next send of the broadcast goes to this stream. */
  predicate AtMe(f: Feed) {
    f.mux.cursor.Some? && f.mux.cursor.value < |f.mux.channels| && f.mux.channels[f.mux.cursor.value] == f.me
  }

  /** The handler may cancel the subscription at any time, also while the goroutine is still in its loop. */
  predicate FeedEnabled(f: Feed, l: FeedLabel) {
    match l
    case Mux(m) =>
      && M.Enabled(f.mux, m)
      && !(m.Deliver? && AtMe(f))
      && (m.Take? ==> !f.drained)
    case Receive(sends) => AtMe(f) && M.Enabled(f.mux, M.Deliver) && f.stream.phase.DataLoop?
    case Pick(c) => Selectable(f.stream, c) && !c.DataEvent? && (c.DataClosed? ==> f.drained && f.listed)
    case Drain => !f.drained && f.mux.taken.None? && f.mux.cursor.None?
  }

  function FeedNext(f: Feed, l: FeedLabel): Feed
    requires FeedEnabled(f, l)
  {
    match l
    case Mux(m) => f.(mux := M.Next(f.mux, m))
    case Receive(sends) =>
      f.(mux := M.Next(f.mux, M.Deliver), stream := Next(f.stream, DataEvent(f.mux.log[|f.mux.log| - 1], sends)))
    case Pick(c) => f.(stream := Next(f.stream, c))
    case Drain => f.(drained := true, listed := f.me in f.mux.channels)
  }

  /** The stream has just forked its data channel, which takes the write lock. */
  ghost predicate FeedInit(f: Feed, mode: Mode) {
    && M.Inv(f.mux) && f.stream == Initial(mode) && !f.drained && f.mux.cursor.None?
    && f.me in f.mux.channels && f.me in f.mux.consumers && f.mux.consumers[f.me].received == []
  }

  ghost predicate FeedRun(mode: Mode, states: seq<Feed>, labels: seq<FeedLabel>) {
    && |states| == |labels| + 1 && FeedInit(states[0], mode)
    && forall i :: 0 <= i < |labels| ==> FeedEnabled(states[i], labels[i]) && states[i + 1] == FeedNext(states[i], labels[i])
  }

  ghost predicate FeedInv(f: Feed, start: nat) {
    && M.Inv(f.mux) && Inv(f.stream)
    && f.me in f.mux.consumers && f.mux.consumers[f.me].start == start
    && f.mux.consumers[f.me].received == f.stream.received
    && (f.drained ==> f.mux.taken.None? && f.mux.cursor.None?)
    && (f.drained && f.listed ==> start <= |f.mux.log| && f.stream.received == f.mux.log[start..])
    && (f.stream.closed ==> f.drained && f.listed)
  }

  /** The consumer's record changes only when the broadcast reaches it or it is removed. */
  lemma MuxStepElsewhere(f: Feed, m: M.Label<Event>, start: nat)
    requires FeedInv(f, start) && FeedEnabled(f, Mux(m))
    ensures var mux' := M.Next(f.mux, m);
            && M.Inv(mux') && f.me in mux'.consumers
            && mux'.consumers[f.me].start == start && mux'.consumers[f.me].received == f.stream.received
            && (f.drained ==> mux'.taken.None? && mux'.cursor.None? && mux'.log == f.mux.log)
  {
    M.StepKeepsInv(f.mux, m);
    match m
    case Remove(c) => M.WithoutSpec(f.mux.channels, c);
    case _ =>
  }

  lemma ReceiveStep(f: Feed, sends: bool, start: nat)
    requires FeedInv(f, start) && FeedEnabled(f, Receive(sends))
    ensures FeedInv(FeedNext(f, Receive(sends)), start)
  {
    M.StepKeepsInv(f.mux, M.Deliver);
    StepKeepsInv(f.stream, DataEvent(f.mux.log[|f.mux.log| - 1], sends));
  }

  lemma PickStep(f: Feed, c: Choice, start: nat)
    requires FeedInv(f, start) && FeedEnabled(f, Pick(c))
    ensures FeedInv(FeedNext(f, Pick(c)), start)
  {
    StepKeepsInv(f.stream, c);
  }

  /** When the source is drained, a subscription still listed has been served completely. */
  lemma DrainStep(f: Feed, start: nat)
    requires FeedInv(f, start) && FeedEnabled(f, Drain)
    ensures FeedInv(FeedNext(f, Drain), start)
  {
    if f.me in f.mux.channels {
      var i :| 0 <= i < |f.mux.channels| && f.mux.channels[i] == f.me;
      assert M.LiveOk(f.mux, i);
    }
  }

  lemma {:induction false} FeedKeepsInv(mode: Mode, states: seq<Feed>, labels: seq<FeedLabel>, k: nat)
    requires FeedRun(mode, states, labels) && k <= |labels|
    ensures FeedInv(states[k], states[0].mux.consumers[states[0].me].start)
  {
    var start := states[0].mux.consumers[states[0].me].start;
    if k == 0 {
    } else {
      FeedKeepsInv(mode, states, labels, k - 1);
      var f, l := states[k - 1], labels[k - 1];
      assert FeedEnabled(f, l);
      match l
      case Mux(m) => MuxStepElsewhere(f, m, start);
      case Receive(sends) => ReceiveStep(f, sends, start);
      case Pick(c) => PickStep(f, c, start);
      case Drain => DrainStep(f, start);
    }
  }

  /** The values the multiplexer received from the process output since the subscription. */
  function Output(labels: seq<FeedLabel>): seq<Event> {
    if labels == [] then []
    else
      var l := labels[|labels| - 1];
      Output(labels[..|labels| - 1]) + if l.Mux? && l.l.Take? then [l.l.v] else []
  }

  function Source(mux: M.State<Event>): seq<Event> { mux.log + M.Pending(mux) }

  lemma FeedStepSource(f: Feed, l: FeedLabel)
    requires FeedEnabled(f, l)
    ensures Source(FeedNext(f, l).mux) == Source(f.mux) + if l.Mux? && l.l.Take? then [l.l.v] else []
  {
    if l.Mux? { M.StepSource(f.mux, l.l); }
    if l.Receive? { M.StepSource(f.mux, M.Deliver); }
  }

  lemma {:induction false} FeedSource(mode: Mode, states: seq<Feed>, labels: seq<FeedLabel>, k: nat)
    requires FeedRun(mode, states, labels) && k <= |labels|
    ensures Source(states[k].mux) == Source(states[0].mux) + Output(labels[..k])
  {
    if k == 0 {
    } else {
      FeedSource(mode, states, labels, k - 1);
      FeedStepSource(states[k - 1], labels[k - 1]);
      assert labels[..k][..k - 1] == labels[..k - 1];
    }
  }

  lemma StartsAtEnd(f: Feed, mode: Mode)
    requires FeedInit(f, mode)
    ensures f.mux.consumers[f.me].start == |f.mux.log|
  {
    var i :| 0 <= i < |f.mux.channels| && f.mux.channels[i] == f.me;
    assert M.LiveOk(f.mux, i);
  }

  /** Once drained, the log is what it was at the subscription, what was pending then, and what came since. */
  lemma DrainedLog(mode: Mode, states: seq<Feed>, labels: seq<FeedLabel>, k: nat)
    requires FeedRun(mode, states, labels) && k <= |labels| && states[k].mux.taken.None?
    ensures states[k].mux.log == states[0].mux.log + (M.Pending(states[0].mux) + Output(labels[..k]))
  {
    FeedSource(mode, states, labels, k);
    assert Source(states[k].mux) == states[k].mux.log;
    assert Source(states[0].mux) + Output(labels[..k]) == states[0].mux.log + (M.Pending(states[0].mux) + Output(labels[..k]));
  }

  /** Messages other than data come from the picks of the run. */
  lemma {:induction false} FeedSentWasPicked(mode: Mode, states: seq<Feed>, labels: seq<FeedLabel>, k: nat, m: Message)
    requires FeedRun(mode, states, labels) && k <= |labels| && m in states[k].stream.sent && !m.Data?
    ensures Pick(OfferFor(m)) in labels[..k]
  {
    if k == 0 {
    } else if m in states[k - 1].stream.sent {
      FeedSentWasPicked(mode, states, labels, k - 1, m);
      assert labels[..k - 1] <= labels[..k];
    } else {
      var f, l := states[k - 1], labels[k - 1];
      assert FeedEnabled(f, l) && states[k] == FeedNext(f, l);
      if l.Pick? { StepSends(f.stream, l.c); }
      assert labels[..k][k - 1] == l;
    }
  }

  /** End to end: when a client is sent End, the data messages before it are exactly the process output received
      since the subscription, in order, after a value that was then on its way; and the end event is one that
      was received. */
  lemma EndMeansEverythingSent(mode: Mode, states: seq<Feed>, labels: seq<FeedLabel>, k: nat)
    requires FeedRun(mode, states, labels) && k <= |labels| && EndSent(states[k].stream)
    ensures states[k].drained && Grammatical(states[k].stream.sent)
    ensures DataOf(states[k].stream.sent) == M.Pending(states[0].mux) + Output(labels[..k])
    ensures var sent := states[k].stream.sent; Pick(EndEvent(sent[|sent| - 1].event, true)) in labels[..k]
  {
    FeedKeepsInv(mode, states, labels, k);
    InvIsGrammatical(states[k].stream);
    DrainedLog(mode, states, labels, k);
    StartsAtEnd(states[0], mode);
    FeedSentWasPicked(mode, states, labels, k, states[k].stream.sent[|states[k].stream.sent| - 1]);
  }
}
