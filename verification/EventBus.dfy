/** The in-process domain-event bus: subscription, and the isolated concurrent fan-out of one emit. */
module EventBus {

  /** What reading a property and putting it in a template string comes to: a text (also for a missing property), a
      symbol, an object that does not convert to a string, or a getter that throws. */
  datatype Property = Text | SymbolValue | Unconvertible | GetterThrows

  /** What a handler throws: `null` or `undefined`, or any other value with what `message` and `stack` are on it. */
  datatype Thrown = Nullish | Value(message: Property, stack: Property)

  datatype Ending = Returns | Throws(thrown: Thrown)

  /** Whether the `catch` throws in its turn: it reads `message`, converts it to a string, and reads `stack`. */
  predicate CatchThrows(thrown: Thrown) {
    match thrown
    case Nullish => true
    case Value(message, stack) => !message.Text? || stack.GetterThrows?
  }

  predicate Escapes(ending: Ending) {
    ending.Throws? && CatchThrows(ending.thrown)
  }

  /** Where one handler's promise chain stands. */
  datatype Phase = Queued | Running | Fulfilled | Broken

  /** What the awaiting caller sees. */
  datatype Outcome = Pending | Resolved | Rejected

  /** One emit: the handlers taken at the call, the phase of each, and how often each has been called and has ended. */
  datatype Emission<H> = Emission(handlers: seq<H>, phases: seq<Phase>, calls: seq<nat>, ends: seq<nat>,
                                  outcome: Outcome)

  datatype Event = Call(i: nat) | End(i: nat, ending: Ending)

  ghost predicate WellFormed<H>(e: Emission<H>) {
    |e.phases| == |e.handlers| == |e.calls| == |e.ends|
  }

  function Started<H>(handlers: seq<H>): Emission<H> {
    var n := |handlers|;
    Emission(handlers, seq(n, _ => Queued), seq(n, _ => 0), seq(n, _ => 0), if n == 0 then Resolved else Pending)
  }

  predicate Done(p: Phase) { p.Fulfilled? || p.Broken? }

  predicate Enabled<H>(e: Emission<H>, event: Event) {
    && event.i < |e.handlers| == |e.phases| == |e.calls| == |e.ends|
    && match event
       case Call(i) => e.phases[i].Queued?
       case End(i, _) => e.phases[i].Running?
  }

  /** `Promise.all`: the first rejection rejects it; the last fulfilment resolves it. */
  function Settle(outcome: Outcome, phases: seq<Phase>): Outcome {
    if !outcome.Pending? then outcome
    else if exists i :: 0 <= i < |phases| && phases[i].Broken? then Rejected
    else if forall i :: 0 <= i < |phases| ==> phases[i].Fulfilled? then Resolved
    else Pending
  }

  function Step<H>(e: Emission<H>, event: Event): (e': Emission<H>)
    requires Enabled(e, event)
  {
    match event
    case Call(i) => e.(phases := e.phases[i := Running], calls := e.calls[i := e.calls[i] + 1])
    case End(i, ending) =>
      var phases := e.phases[i := if Escapes(ending) then Broken else Fulfilled];
      e.(phases := phases, ends := e.ends[i := e.ends[i] + 1], outcome := Settle(e.outcome, phases))
  }

  ghost predicate Runs<H>(e: Emission<H>, events: seq<Event>)
    decreases |events|
  {
    events == [] || (Enabled(e, events[0]) && Runs(Step(e, events[0]), events[1..]))
  }

  ghost function After<H>(e: Emission<H>, events: seq<Event>): Emission<H>
    requires Runs(e, events)
    decreases |events|
  {
    if events == [] then e else After(Step(e, events[0]), events[1..])
  }

  // ------------------------------------------------------------ subscription

  class DomainEventBus<H> {
    var handlers: map<string, seq<H>>

    constructor ()
      ensures handlers == map[]
    {
      handlers := map[];
    }

    function Subscribed(event: string): seq<H>
      reads this
    {
      if event in handlers then handlers[event] else []
    }

    method On(event: string, handler: H)
      modifies this
      ensures Subscribed(event) == old(Subscribed(event)) + [handler]
      ensures forall other :: other != event ==> Subscribed(other) == old(Subscribed(other))
    {
      var existing := if event in handlers then handlers[event] else [];
      existing := existing + [handler];
      handlers := handlers[event := existing];
    }

    /** The synchronous part of `emit`: one queued promise chain for each handler subscribed now. */
    method Emit(event: string) returns (e: Emission<H>)
      ensures e == Started(Subscribed(event))
    {
      if event !in handlers || |handlers[event]| == 0 {
        return Emission([], [], [], [], Resolved);
      }
      var n := |handlers[event]|;
      return Emission(handlers[event], seq(n, _ => Queued), seq(n, _ => 0), seq(n, _ => 0), Pending);
    }
  }

  /** The event loop: handler calls and endings of one emit, with subscriptions made in between. */
  datatype Tick<H> = Handler(event: Event) | Subscribe(name: string, handler: H)

  ghost function HandlerEvents<H>(ticks: seq<Tick<H>>): seq<Event> {
    if ticks == [] then []
    else (if ticks[0].Handler? then [ticks[0].event] else []) + HandlerEvents(ticks[1..])
  }

  lemma {:induction false} HandlerEventsSnoc<H>(ticks: seq<Tick<H>>, last: Tick<H>)
    ensures HandlerEvents(ticks + [last]) == HandlerEvents(ticks) + (if last.Handler? then [last.event] else [])
  {
    HandlerEventsConcat(ticks, [last]);
    assert [last][1..] == [];
  }

  lemma {:induction false} RunsSnoc<H>(e: Emission<H>, events: seq<Event>, last: Event)
    requires Runs(e, events) && Enabled(After(e, events), last)
    ensures Runs(e, events + [last]) && After(e, events + [last]) == Step(After(e, events), last)
    decreases |events|
  {
    if events == [] {
      assert [] + [last] == [last];
      assert [last][1..] == [];
    } else {
      assert (events + [last])[1..] == events[1..] + [last];
      RunsSnoc(Step(e, events[0]), events[1..], last);
    }
  }

  lemma {:induction false} RunsPrefix<H>(e: Emission<H>, a: seq<Event>, b: seq<Event>)
    requires Runs(e, a + b)
    ensures Runs(e, a) && Runs(After(e, a), b) && After(e, a + b) == After(After(e, a), b)
    decreases |a|
  {
    if a == [] {
      assert a + b == b;
    } else {
      assert (a + b)[1..] == a[1..] + b;
      RunsPrefix(Step(e, a[0]), a[1..], b);
    }
  }

  /** Before and after tick `k` of a legal run. */
  lemma {:induction false} TickStep<H>(first: Emission<H>, ticks: seq<Tick<H>>, k: nat)
    requires Runs(first, HandlerEvents(ticks)) && k < |ticks|
    requires Runs(first, HandlerEvents(ticks[..k]))
    ensures Runs(first, HandlerEvents(ticks[..k + 1]))
    ensures ticks[k].Handler? ==>
              && Enabled(After(first, HandlerEvents(ticks[..k])), ticks[k].event)
              && After(first, HandlerEvents(ticks[..k + 1])) ==
                  Step(After(first, HandlerEvents(ticks[..k])), ticks[k].event)
    ensures ticks[k].Subscribe? ==> HandlerEvents(ticks[..k + 1]) == HandlerEvents(ticks[..k])
  {
    assert ticks[..k + 1] == ticks[..k] + [ticks[k]];
    assert ticks == ticks[..k + 1] + ticks[k + 1..];
    HandlerEventsSnoc(ticks[..k], ticks[k]);
    HandlerEventsConcat(ticks[..k + 1], ticks[k + 1..]);
    RunsPrefix(first, HandlerEvents(ticks[..k + 1]), HandlerEvents(ticks[k + 1..]));
    if ticks[k].Handler? {
      RunsPrefix(first, HandlerEvents(ticks[..k]), [ticks[k].event]);
      RunsSnoc(first, HandlerEvents(ticks[..k]), ticks[k].event);
    }
  }

  ghost predicate Reached<H>(first: Emission<H>, ticks: seq<Tick<H>>, e: Emission<H>) {
    Runs(first, HandlerEvents(ticks)) && e == After(first, HandlerEvents(ticks))
  }

  lemma {:induction false} TickReached<H>(first: Emission<H>, ticks: seq<Tick<H>>, k: nat, e: Emission<H>)
    requires Runs(first, HandlerEvents(ticks)) && k < |ticks| && Reached(first, ticks[..k], e)
    ensures ticks[k].Handler? ==> Enabled(e, ticks[k].event) && Reached(first, ticks[..k + 1], Step(e, ticks[k].event))
    ensures ticks[k].Subscribe? ==> Reached(first, ticks[..k + 1], e)
  {
    TickStep(first, ticks, k);
  }

  /** Emitting while handlers subscribe others: the emit calls only the handlers it took, and the
      newcomers are there for the next one. */
  method EmitWhileSubscribing<H>(bus: DomainEventBus<H>, event: string, ticks: seq<Tick<H>>) returns (e: Emission<H>)
    requires Runs(Started(bus.Subscribed(event)), HandlerEvents(ticks))
    modifies bus
    ensures e == After(Started(old(bus.Subscribed(event))), HandlerEvents(ticks))
    ensures bus.Subscribed(event) == old(bus.Subscribed(event)) + Newcomers(ticks, event)
  {
    e := bus.Emit(event);
    ghost var first, subscribed := e, bus.Subscribed(event);
    for k := 0 to |ticks|
      invariant Reached(first, ticks[..k], e)
      invariant bus.Subscribed(event) == subscribed + Newcomers(ticks[..k], event)
    {
      TickReached(first, ticks, k, e);
      NewcomersTake(ticks, k, event);
      match ticks[k] {
        case Handler(step) => e := Step(e, step);
        case Subscribe(name, handler) => bus.On(name, handler);
      }
    }
    assert ticks[..|ticks|] == ticks;
  }

  lemma NewcomersTake<H>(ticks: seq<Tick<H>>, k: nat, event: string)
    requires k < |ticks|
    ensures Newcomers(ticks[..k + 1], event) ==
            Newcomers(ticks[..k], event)
              + (if ticks[k].Subscribe? && ticks[k].name == event then [ticks[k].handler] else [])
  {
    assert ticks[..k + 1] == ticks[..k] + [ticks[k]];
    NewcomersSnoc(ticks[..k], ticks[k], event);
  }

  ghost function Newcomers<H>(ticks: seq<Tick<H>>, event: string): seq<H> {
    if ticks == [] then []
    else
      (if ticks[0].Subscribe? && ticks[0].name == event then [ticks[0].handler] else [])
      + Newcomers(ticks[1..], event)
  }

  lemma {:induction false} NewcomersSnoc<H>(ticks: seq<Tick<H>>, last: Tick<H>, event: string)
    ensures Newcomers(ticks + [last], event) ==
            Newcomers(ticks, event) + (if last.Subscribe? && last.name == event then [last.handler] else [])
  {
    if ticks == [] {
      assert [] + [last] == [last];
    } else {
      assert (ticks + [last])[1..] == ticks[1..] + [last];
      NewcomersSnoc(ticks[1..], last, event);
    }
  }

  lemma {:induction false} HandlerEventsConcat<H>(a: seq<Tick<H>>, b: seq<Tick<H>>)
    ensures HandlerEvents(a + b) == HandlerEvents(a) + HandlerEvents(b)
  {
    if a == [] {
      assert a + b == b;
    } else {
      assert (a + b)[1..] == a[1..] + b && (a + b)[0] == a[0];
      HandlerEventsConcat(a[1..], b);
    }
  }

  // --------------------------------------------------------------- isolation

  /** What every step keeps. */
  ghost predicate Inv<H>(e: Emission<H>) {
    && WellFormed(e)
    && (forall i :: 0 <= i < |e.phases| ==>
          && e.calls[i] == (if e.phases[i].Queued? then 0 else 1)
          && e.ends[i] == (if Done(e.phases[i]) then 1 else 0))
    && (e.outcome.Rejected? <==> exists i :: 0 <= i < |e.phases| && e.phases[i].Broken?)
    && (e.outcome.Resolved? <==> forall i :: 0 <= i < |e.phases| ==> e.phases[i].Fulfilled?)
  }

  lemma InvStarted<H>(handlers: seq<H>)
    ensures Inv(Started(handlers))
  {
    var e := Started(handlers);
    if handlers != [] {
      assert e.phases[0].Queued?;
    }
  }

  lemma InvStep<H>(e: Emission<H>, event: Event)
    requires Inv(e) && Enabled(e, event)
    ensures Inv(Step(e, event)) && Step(e, event).handlers == e.handlers
  {
    var e' := Step(e, event);
    var i := event.i;
    assert e'.phases[i] != e.phases[i];
    assert forall j :: 0 <= j < |e.phases| && j != i ==> e'.phases[j] == e.phases[j];
    if e.outcome.Rejected? {
      var b :| 0 <= b < |e.phases| && e.phases[b].Broken?;
      assert e'.phases[b].Broken?;
    }
  }

  lemma {:induction false} InvRun<H>(e: Emission<H>, events: seq<Event>)
    requires Inv(e) && Runs(e, events)
    ensures Inv(After(e, events)) && After(e, events).handlers == e.handlers
    decreases |events|
  {
    if events != [] {
      InvStep(e, events[0]);
      InvRun(Step(e, events[0]), events[1..]);
    }
  }

  /** Whether some handler has thrown a value on which the `catch` itself throws. */
  ghost predicate EscapedThrow(events: seq<Event>) {
    exists k :: 0 <= k < |events| && IsEscape(events[k])
  }

  predicate IsEscape(event: Event) { event.End? && Escapes(event.ending) }

  ghost predicate AnyBroken(phases: seq<Phase>) {
    exists i :: 0 <= i < |phases| && phases[i].Broken?
  }

  lemma EscapeCons(events: seq<Event>)
    requires events != []
    ensures EscapedThrow(events) <==> IsEscape(events[0]) || EscapedThrow(events[1..])
  {
    if EscapedThrow(events[1..]) {
      var k :| 0 <= k < |events[1..]| && IsEscape(events[1..][k]);
      assert IsEscape(events[k + 1]);
    }
    if EscapedThrow(events) {
      var k :| 0 <= k < |events| && IsEscape(events[k]);
      assert k > 0 ==> IsEscape(events[1..][k - 1]);
    }
  }

  lemma BrokenStep<H>(e: Emission<H>, event: Event)
    requires Inv(e) && Enabled(e, event)
    ensures AnyBroken(Step(e, event).phases) <==> IsEscape(event) || AnyBroken(e.phases)
  {
    var phases := Step(e, event).phases;
    assert forall j :: 0 <= j < |phases| && j != event.i ==> phases[j] == e.phases[j];
    if AnyBroken(e.phases) {
      var b :| 0 <= b < |e.phases| && e.phases[b].Broken?;
      assert phases[b].Broken?;
    }
    if IsEscape(event) {
      assert phases[event.i].Broken?;
    }
  }

  lemma {:induction false} BrokenByEscape<H>(e: Emission<H>, events: seq<Event>)
    requires Inv(e) && Runs(e, events)
    ensures AnyBroken(After(e, events).phases) <==> EscapedThrow(events) || AnyBroken(e.phases)
    decreases |events|
  {
    if events != [] {
      InvStep(e, events[0]);
      BrokenStep(e, events[0]);
      EscapeCons(events);
      BrokenByEscape(Step(e, events[0]), events[1..]);
    }
  }

  /** For every set of failing handlers and every order of calls and endings: nothing is called twice, the
      emit resolves exactly when every handler it took has been called and has ended once with no throw escaping
      its `catch`, and it rejects exactly when some handler has thrown a value on which the `catch` itself throws. */
  lemma {:induction false} Isolation<H>(handlers: seq<H>, events: seq<Event>)
    requires Runs(Started(handlers), events)
    ensures var e := After(Started(handlers), events);
            && e.handlers == handlers && |e.calls| == |e.ends| == |handlers|
            && (forall i :: 0 <= i < |handlers| ==> e.calls[i] <= 1 && e.ends[i] <= e.calls[i])
            && (e.outcome.Rejected? <==> EscapedThrow(events))
            && (e.outcome.Resolved? <==> !EscapedThrow(events) && forall i :: 0 <= i < |handlers| ==> e.ends[i] == 1)
  {
    var first := Started(handlers);
    InvStarted(handlers);
    InvRun(first, events);
    BrokenByEscape(first, events);
    var e := After(first, events);
    if !EscapedThrow(events) && forall i :: 0 <= i < |handlers| ==> e.ends[i] == 1 {
      assert forall i :: 0 <= i < |e.phases| ==> Done(e.phases[i]) && !e.phases[i].Broken?;
    }
  }

  /** One handler that throws: the emit swallows it, or rejects, by what was thrown. */
  lemma {:induction false} OneThrow<H>(handler: H, thrown: Thrown)
    ensures var events := [Call(0), End(0, Throws(thrown))];
            && Runs(Started([handler]), events)
            && After(Started([handler]), events).outcome == (if CatchThrows(thrown) then Rejected else Resolved)
  {
    var first, call, end := Started([handler]), Call(0), End(0, Throws(thrown));
    var second := Step(first, call);
    assert [call, end][1..] == [end] && [end][1..] == [];
    assert Runs(Step(second, end), []);
    assert Runs(second, [end]) && After(second, [end]) == Step(second, end);
    assert Step(second, end).phases == [if CatchThrows(thrown) then Broken else Fulfilled];
    assert Step(second, end).phases[0] == if CatchThrows(thrown) then Broken else Fulfilled;
  }

  /** An ordinary error is swallowed; `null` or `undefined`, and an object whose message is a symbol, are not. */
  lemma {:induction false} ThrowSamples<H>(handler: H)
    ensures After(Started([handler]), [Call(0), End(0, Throws(Value(Text, Text)))]).outcome == Resolved
    ensures After(Started([handler]), [Call(0), End(0, Throws(Nullish))]).outcome == Rejected
    ensures After(Started([handler]), [Call(0), End(0, Throws(Value(SymbolValue, Text)))]).outcome == Rejected
  {
    OneThrow(handler, Value(Text, Text));
    OneThrow(handler, Nullish);
    OneThrow(handler, Value(SymbolValue, Text));
  }

  function Left(p: Phase): nat { if p.Queued? then 2 else if p.Running? then 1 else 0 }

  function Remaining(phases: seq<Phase>): nat {
    if phases == [] then 0 else Left(phases[0]) + Remaining(phases[1..])
  }

  lemma {:induction false} RemainingUpdate(phases: seq<Phase>, i: nat, p: Phase)
    requires i < |phases|
    ensures Remaining(phases[i := p]) == Remaining(phases) - Left(phases[i]) + Left(p)
  {
    if i == 0 {
      assert phases[i := p][1..] == phases[1..];
    } else {
      assert phases[i := p][1..] == phases[1..][i - 1 := p];
      RemainingUpdate(phases[1..], i - 1, p);
    }
  }

  lemma {:induction false} RunLength<H>(e: Emission<H>, events: seq<Event>)
    requires Inv(e) && Runs(e, events)
    ensures |events| + Remaining(After(e, events).phases) == Remaining(e.phases)
    decreases |events|
  {
    if events != [] {
      InvStep(e, events[0]);
      RunLength(Step(e, events[0]), events[1..]);
      RemainingUpdate(e.phases, events[0].i, Step(e, events[0]).phases[events[0].i]);
    }
  }

  lemma {:induction false} RemainingStarted(n: nat)
    ensures Remaining(seq(n, _ => Queued)) == 2 * n
  {
    if n > 0 {
      assert seq(n, _ => Queued)[1..] == seq(n - 1, _ => Queued);
      RemainingStarted(n - 1);
    }
  }

  lemma {:induction false} NothingRemains(phases: seq<Phase>)
    requires Remaining(phases) == 0
    ensures forall i :: 0 <= i < |phases| ==> Done(phases[i])
  {
    if phases != [] {
      NothingRemains(phases[1..]);
      assert forall i :: 1 <= i < |phases| ==> phases[i] == phases[1..][i - 1];
    }
  }

  /** An emit takes exactly two steps a handler, and until then one more can always be taken: it ends
      whenever its handlers do. */
  lemma {:induction false} EmitEnds<H>(handlers: seq<H>, events: seq<Event>)
    requires Runs(Started(handlers), events)
    ensures |events| <= 2 * |handlers|
    ensures |events| == 2 * |handlers| ==> !After(Started(handlers), events).outcome.Pending?
    ensures |events| < 2 * |handlers| ==> exists event :: Enabled(After(Started(handlers), events), event)
  {
    var first := Started(handlers);
    InvStarted(handlers);
    InvRun(first, events);
    RunLength(first, events);
    RemainingStarted(|handlers|);
    var e := After(first, events);
    if |events| == 2 * |handlers| {
      NothingRemains(e.phases);
    } else {
      AnyRemaining(e.phases);
      var i :| 0 <= i < |e.phases| && !Done(e.phases[i]);
      assert Enabled(e, if e.phases[i].Queued? then Call(i) else End(i, Returns));
    }
  }

  lemma {:induction false} AnyRemaining(phases: seq<Phase>)
    requires Remaining(phases) > 0
    ensures exists i :: 0 <= i < |phases| && !Done(phases[i])
  {
    if Done(phases[0]) {
      AnyRemaining(phases[1..]);
      var i :| 0 <= i < |phases[1..]| && !Done(phases[1..][i]);
      assert phases[i + 1] == phases[1..][i];
    }
  }
}
