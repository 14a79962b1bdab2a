/** The refresh protocol both web clients implement: many calls, at most one refresh
    flight, an in-memory access token, and a server that rotates single-use refresh tokens. */
module RefreshProtocol {
  import opened Wrappers

  /** Where an access token came from: nowhere, a login or logout outside the protocol, or a refresh flight. */
  datatype Token = NoToken | External(id: nat) | Minted(flight: nat)

  /** A flight is out, then its outcome is decided (and its token installed), then it stops being the shared one. */
  datatype Phase = Out | Landed(ok: bool) | Closed(ok: bool)

  /** How a flight landed: with the server's answer, having never reached the server, or given up by the
      client while the request may still be on its way (a timeout, a broken connection). */
  datatype Landing = Flying | Answered | Dropped | Cut

  /** `presented` numbers the refresh token in the cookie when the flight set out; the server `served` it, and
      `rotated` when that token was the live one. */
  datatype Flight = Flight(phase: Phase, presented: nat, served: bool, rotated: bool, landing: Landing)

  /** A call before it is sent, after its first send, waiting on a flight, after its replay with the token it
      carried, and over. */
  datatype Stage = Ready | Sent | Waiting | Resent(token: Token) | Done

  /** `joined` is the flight the call asked for or joined; `sends` and `asks` count. */
  datatype Call = Call(stage: Stage, joined: Option<nat>, sends: nat, asks: nat)

  /** Refresh tokens are numbered in the order the server mints them; all before `live` are used. `reused` records
      that the server saw a used one, which revokes the family. */
  datatype State = State(flights: seq<Flight>, open: Option<nat>, token: Token, cookie: nat, live: nat, reused: bool,
                         calls: seq<Call>)

  const FRESH_CALL := Call(Ready, None, 0, 0)

  /** `n` calls about to start, with a valid cookie and any access token from outside. */
  function Init(n: nat, token: Token): State {
    State([], None, token, 0, 0, false, seq(n, _ => FRESH_CALL))
  }

  datatype Action =
    | Send(i: nat)
    | Finish(i: nat)
    | Ask(i: nat)
    | Serve(f: nat)
    | Land(f: nat, landing: Landing, ok: bool)
    | Close(f: nat)
    | Resume(i: nat)
    | Settle(i: nat)
    | SetToken(token: Token)

  predicate InStage(s: State, i: nat, stage: Stage) {
    i < |s.calls| && s.calls[i].stage == stage
  }

  predicate Enabled(s: State, a: Action) {
    match a
    case Send(i) => InStage(s, i, Ready)
    case Finish(i) => InStage(s, i, Sent)
    case Ask(i) => InStage(s, i, Sent)
    case Serve(f) => f < |s.flights| && !s.flights[f].served && s.flights[f].landing != Dropped
    case Land(f, landing, ok) =>
      && f < |s.flights| && s.flights[f].phase.Out?
      && (match landing
          case Flying => false
          case Answered => s.flights[f].served && (ok ==> s.flights[f].rotated)
          case Dropped => !s.flights[f].served && !ok
          case Cut => !ok)
    case Close(f) => f < |s.flights| && s.flights[f].phase.Landed?
    case Resume(i) => InStage(s, i, Waiting) && s.calls[i].joined.Some? && ClosedFlight(s, s.calls[i].joined.value)
    case Settle(i) => i < |s.calls| && s.calls[i].stage.Resent?
    case SetToken(token) => !token.Minted?
  }

  predicate ClosedFlight(s: State, f: nat) {
    f < |s.flights| && s.flights[f].phase.Closed?
  }

  function Apply(s: State, a: Action): State
    requires Enabled(s, a)
  {
    match a
    case Send(i) => s.(calls := s.calls[i := s.calls[i].(stage := Sent, sends := s.calls[i].sends + 1)])
    case Finish(i) => s.(calls := s.calls[i := s.calls[i].(stage := Done)])
    case Ask(i) =>
      var call := s.calls[i].(stage := Waiting, asks := s.calls[i].asks + 1);
      if s.open.Some? then s.(calls := s.calls[i := call.(joined := s.open)])
      else
        var f := |s.flights|;
        s.(flights := s.flights + [Flight(Out, s.cookie, false, false, Flying)], open := Some(f),
           calls := s.calls[i := call.(joined := Some(f))])
    case Serve(f) =>
      var flight := s.flights[f];
      var rotates := flight.presented == s.live && !s.reused;
      s.(flights := s.flights[f := flight.(served := true, rotated := rotates)],
         live := if rotates then s.live + 1 else s.live,
         reused := s.reused || flight.presented != s.live)
    case Land(f, landing, ok) =>
      var flight := s.flights[f];
      s.(flights := s.flights[f := flight.(phase := Landed(ok), landing := landing)],
         cookie := if landing.Answered? && flight.rotated then flight.presented + 1 else s.cookie,
         token := if ok then Minted(f) else s.token)
    case Close(f) =>
      s.(flights := s.flights[f := s.flights[f].(phase := Closed(s.flights[f].phase.ok))], open := None)
    case Resume(i) =>
      var call := s.calls[i];
      if s.flights[call.joined.value].phase.ok
      then s.(calls := s.calls[i := call.(stage := Resent(s.token), sends := call.sends + 1)])
      else s.(calls := s.calls[i := call.(stage := Done)])
    case Settle(i) => s.(calls := s.calls[i := s.calls[i].(stage := Done)])
    case SetToken(token) => s.(token := token)
  }

  ghost predicate Runs(s: State, actions: seq<Action>)
    decreases |actions|
  {
    actions == [] || (Enabled(s, actions[0]) && Runs(Apply(s, actions[0]), actions[1..]))
  }

  ghost function After(s: State, actions: seq<Action>): State
    requires Runs(s, actions)
    decreases |actions|
  {
    if actions == [] then s else After(Apply(s, actions[0]), actions[1..])
  }

  // ------------------------------------------------- what every step keeps

  /** Only the last flight can be unfinished, and exactly then it is the shared one. */
  ghost predicate FlightsOk(flights: seq<Flight>, open: Option<nat>) {
    && (forall f :: 0 <= f < |flights| - 1 ==> flights[f].phase.Closed?)
    && (|flights| > 0 && !flights[|flights| - 1].phase.Closed? <==> open.Some?)
    && (open.Some? ==> open.value == |flights| - 1)
    && (forall f :: 0 <= f < |flights| ==> FlightOk(flights[f]))
  }

  predicate FlightOk(flight: Flight) {
    && (flight.phase.Out? <==> flight.landing.Flying?)
    && (flight.rotated || flight.landing.Answered? ==> flight.served)
    && (flight.landing.Dropped? ==> !flight.served)
  }

  predicate Succeeded(flights: seq<Flight>, f: nat) {
    f < |flights| && flights[f].phase == Closed(true)
  }

  predicate Failed(flights: seq<Flight>, f: nat) {
    f < |flights| && flights[f].phase == Closed(false)
  }

  /** A call's counters, and what it knows of its flight. */
  predicate CallOk(flights: seq<Flight>, c: Call) {
    match c.stage
    case Ready => c.sends == 0 && c.asks == 0 && c.joined.None?
    case Sent => c.sends == 1 && c.asks == 0 && c.joined.None?
    case Waiting => c.sends == 1 && c.asks == 1 && c.joined.Some? && c.joined.value < |flights|
    case Resent(token) =>
      && c.sends == 2 && c.asks == 1 && c.joined.Some? && Succeeded(flights, c.joined.value)
      && (token.Minted? ==> c.joined.value <= token.flight)
    case Done =>
      if c.joined.None? then c.sends == 1 && c.asks == 0
      else
        && c.asks == 1
        && ((c.sends == 2 && Succeeded(flights, c.joined.value)) || (c.sends == 1 && Failed(flights, c.joined.value)))
  }

  ghost predicate CallsOk(flights: seq<Flight>, calls: seq<Call>) {
    forall i :: 0 <= i < |calls| ==> CallOk(flights, calls[i])
  }

  predicate HasInstalled(flight: Flight) {
    flight.phase == Landed(true) || flight.phase == Closed(true)
  }

  /** The token in memory is never older than one a flight has installed. */
  ghost predicate TokenOk(flights: seq<Flight>, token: Token) {
    token.Minted? ==>
      token.flight < |flights| && forall f :: 0 <= f < |flights| && HasInstalled(flights[f]) ==> f <= token.flight
  }

  ghost predicate UsedBy(flights: seq<Flight>, k: int) {
    exists f :: RotatedBy(flights, f, k)
  }

  predicate RotatedBy(flights: seq<Flight>, f: int, k: int) {
    0 <= f < |flights| && flights[f].rotated && flights[f].presented == k
  }

  /** The server's side: the used tokens are those flights have rotated, each by one flight. */
  ghost predicate ServerOk(flights: seq<Flight>, live: nat) {
    && (forall k :: 0 <= k < live ==> UsedBy(flights, k))
    && (forall f :: 0 <= f < |flights| && flights[f].rotated ==> flights[f].presented < live)
  }

  /** One flight is unfinished, and no other. */
  ghost predicate OnlyUnfinished(flights: seq<Flight>, f: int) {
    && 0 <= f < |flights| && !flights[f].phase.Closed?
    && forall g :: 0 <= g < |flights| && g != f ==> flights[g].phase.Closed?
  }

  ghost predicate AllClosed(flights: seq<Flight>) {
    forall f :: 0 <= f < |flights| ==> flights[f].phase.Closed?
  }

  /** The token in memory is that of flight `f`, and no flight has installed a newer one. */
  ghost predicate NewestInstalled(flights: seq<Flight>, token: Token, f: nat) {
    token == Minted(f) && forall g :: 0 <= g < |flights| && HasInstalled(flights[g]) ==> g <= f
  }

  predicate CountsForCookie(flight: Flight) {
    flight.rotated && flight.landing.Answered?
  }

  /** The number of answered rotations among the first `n` flights. */
  function AnsweredRotations(flights: seq<Flight>, n: nat): nat
    requires n <= |flights|
  {
    if n == 0 then 0
    else AnsweredRotations(flights, n - 1) + (if CountsForCookie(flights[n - 1]) then 1 else 0)
  }

  /** The browser's side: a flight shows the token of the last answered rotation before it. */
  ghost predicate CookieOk(flights: seq<Flight>, cookie: nat) {
    && cookie == AnsweredRotations(flights, |flights|)
    && (forall f :: 0 <= f < |flights| ==> Shows(flights, f))
  }

  predicate Shows(flights: seq<Flight>, f: nat)
    requires f < |flights|
  {
    flights[f].presented == AnsweredRotations(flights, f)
  }

  ghost predicate NeverCut(flights: seq<Flight>) {
    forall f :: 0 <= f < |flights| ==> !flights[f].landing.Cut?
  }

  predicate RotatedInFlight(flights: seq<Flight>) {
    |flights| > 0 && flights[|flights| - 1].landing.Flying? && flights[|flights| - 1].rotated
  }

  /** While no flight has been cut, the server has seen no used token and the cookie is at most one answer behind it. */
  ghost predicate InStep(flights: seq<Flight>, cookie: nat, live: nat, reused: bool) {
    NeverCut(flights) ==> !reused && live == cookie + (if RotatedInFlight(flights) then 1 else 0)
  }

  ghost predicate Inv(s: State) {
    && FlightsOk(s.flights, s.open) && CallsOk(s.flights, s.calls) && TokenOk(s.flights, s.token)
    && ServerOk(s.flights, s.live) && s.cookie <= s.live && CookieOk(s.flights, s.cookie)
    && InStep(s.flights, s.cookie, s.live, s.reused)
  }

  lemma {:induction false} InvInit(n: nat, token: Token)
    requires !token.Minted?
    ensures Inv(Init(n, token))
  {
  }

  predicate MovesOneCall(a: Action) {
    a.Send? || a.Finish? || a.Resume? || a.Settle? || a.SetToken?
  }

  /** One call moves; the flights do not. */
  lemma {:induction false} CallAlone(s: State, a: Action)
    requires FlightsOk(s.flights, s.open) && CallsOk(s.flights, s.calls) && TokenOk(s.flights, s.token)
    requires Enabled(s, a) && MovesOneCall(a)
    ensures CallsOk(s.flights, Apply(s, a).calls) && TokenOk(s.flights, Apply(s, a).token)
  {
    var calls := Apply(s, a).calls;
    forall i | 0 <= i < |calls|
      ensures CallOk(s.flights, calls[i])
    {
      assert CallOk(s.flights, s.calls[i]);
      if a.Resume? && i == a.i {
        assert HasInstalled(s.flights[s.calls[i].joined.value]) || Failed(s.flights, s.calls[i].joined.value);
      }
    }
  }

  lemma {:induction false} CallStep(s: State, a: Action)
    requires Inv(s) && Enabled(s, a) && MovesOneCall(a)
    ensures Inv(Apply(s, a))
  {
    CallAlone(s, a);
  }

  /** Flights only ever grow, and a closed one stays as it is. */
  ghost predicate FlightsGrow(flights: seq<Flight>, flights': seq<Flight>) {
    |flights| <= |flights'| && forall f :: 0 <= f < |flights| && flights[f].phase.Closed? ==>
        flights'[f].phase == flights[f].phase
  }

  lemma {:induction false} CallsKeep(flights: seq<Flight>, flights': seq<Flight>, calls: seq<Call>)
    requires CallsOk(flights, calls) && FlightsGrow(flights, flights')
    ensures CallsOk(flights', calls)
  {
    forall i | 0 <= i < |calls|
      ensures CallOk(flights', calls[i])
    {
      assert CallOk(flights, calls[i]);
    }
  }

  lemma {:induction false} AnsweredSame(a: seq<Flight>, b: seq<Flight>, n: nat)
    requires n <= |a| && n <= |b| && forall f :: 0 <= f < n ==> CountsForCookie(a[f]) == CountsForCookie(b[f])
    ensures AnsweredRotations(a, n) == AnsweredRotations(b, n)
  {
    if n > 0 {
      AnsweredSame(a, b, n - 1);
    }
  }

  lemma {:induction false} AnsweredMonotone(flights: seq<Flight>, m: nat, n: nat)
    requires m <= n <= |flights|
    ensures AnsweredRotations(flights, m) <= AnsweredRotations(flights, n)
  {
    if m < n {
      AnsweredMonotone(flights, m, n - 1);
    }
  }

  lemma {:induction false} UsedKeep(flights: seq<Flight>, flights': seq<Flight>, live: nat)
    requires ServerOk(flights, live) && |flights| <= |flights'|
    requires forall f :: 0 <= f < |flights| && flights[f].rotated ==>
               flights'[f].rotated && flights'[f].presented == flights[f].presented
    ensures forall k :: 0 <= k < live ==> UsedBy(flights', k)
  {
    forall k | 0 <= k < live
      ensures UsedBy(flights', k)
    {
      assert UsedBy(flights, k);
      var f :| RotatedBy(flights, f, k);
      assert RotatedBy(flights', f, k);
    }
  }

  /** Replacing a flight without touching what the cookie counts. */
  lemma {:induction false} CookieKeep(flights: seq<Flight>, flights': seq<Flight>, cookie: nat)
    requires CookieOk(flights, cookie) && |flights'| == |flights|
    requires forall f :: 0 <= f < |flights| ==>
               CountsForCookie(flights'[f]) == CountsForCookie(flights[f])
               && flights'[f].presented == flights[f].presented
    ensures CookieOk(flights', cookie)
  {
    forall f | 0 <= f < |flights|
      ensures Shows(flights', f)
    {
      assert Shows(flights, f);
      AnsweredSame(flights', flights, f);
    }
    AnsweredSame(flights', flights, |flights|);
  }

  lemma {:induction false} CookieNewFlight(flights: seq<Flight>, cookie: nat, flight: Flight)
    requires CookieOk(flights, cookie) && flight.presented == cookie && !flight.rotated
    ensures CookieOk(flights + [flight], cookie)
  {
    var flights' := flights + [flight];
    forall f | 0 <= f < |flights'|
      ensures Shows(flights', f)
    {
      assert f < |flights| ==> Shows(flights, f);
      AnsweredSame(flights', flights, f);
    }
    AnsweredSame(flights', flights, |flights|);
  }

  lemma {:induction false} NewFlightInStep(flights: seq<Flight>, cookie: nat, live: nat, reused: bool, flight: Flight)
    requires InStep(flights, cookie, live, reused) && !flight.rotated && !RotatedInFlight(flights)
    ensures InStep(flights + [flight], cookie, live, reused)
  {
    var flights' := flights + [flight];
    if NeverCut(flights') {
      assert forall f :: 0 <= f < |flights| ==> flights'[f] == flights[f];
    }
  }

  lemma {:induction false} CallsAsk(flights: seq<Flight>, flights': seq<Flight>, calls: seq<Call>, i: nat, f: nat)
    requires CallsOk(flights, calls) && FlightsGrow(flights, flights') && i < |calls| && calls[i].stage == Sent
             && f < |flights'|
    ensures CallsOk(flights', calls[i := calls[i].(stage := Waiting, asks := calls[i].asks + 1, joined := Some(f))])
  {
    CallsKeep(flights, flights', calls);
    assert CallOk(flights', calls[i]);
  }

  lemma {:induction false} AskStep(s: State, i: nat)
    requires Inv(s) && Enabled(s, Ask(i))
    ensures Inv(Apply(s, Ask(i)))
  {
    if s.open.Some? {
      CallsAsk(s.flights, s.flights, s.calls, i, s.open.value);
    } else {
      var flight := Flight(Out, s.cookie, false, false, Flying);
      var flights' := s.flights + [flight];
      CallsAsk(s.flights, flights', s.calls, i, |s.flights|);
      UsedKeep(s.flights, flights', s.live);
      CookieNewFlight(s.flights, s.cookie, flight);
      NewFlightInStep(s.flights, s.cookie, s.live, s.reused, flight);
    }
  }

  lemma {:induction false} PresentedBound(flights: seq<Flight>, cookie: nat, f: nat)
    requires CookieOk(flights, cookie) && f < |flights|
    ensures flights[f].presented <= cookie
  {
    assert Shows(flights, f);
    AnsweredMonotone(flights, f, |flights|);
  }

  lemma {:induction false} ServeServer(flights: seq<Flight>, live: nat, f: nat, flight: Flight)
    requires ServerOk(flights, live) && f < |flights| && !flights[f].rotated
    requires flight.presented == flights[f].presented && (flight.rotated ==> flight.presented == live)
    ensures ServerOk(flights[f := flight], if flight.rotated then live + 1 else live)
  {
    UsedKeep(flights, flights[f := flight], live);
    if flight.rotated {
      assert RotatedBy(flights[f := flight], f, live);
    }
  }

  lemma {:induction false} ServeInStep(s: State, f: nat)
    requires FlightsOk(s.flights, s.open) && InStep(s.flights, s.cookie, s.live, s.reused)
             && CookieOk(s.flights, s.cookie)
    requires Enabled(s, Serve(f))
    ensures InStep(Apply(s, Serve(f)).flights, s.cookie, Apply(s, Serve(f)).live, Apply(s, Serve(f)).reused)
  {
    var s' := Apply(s, Serve(f));
    if NeverCut(s'.flights) {
      assert forall g :: 0 <= g < |s.flights| ==> s'.flights[g].landing == s.flights[g].landing;
      assert NeverCut(s.flights);
      assert FlightOk(s.flights[f]);
      assert s.flights[f].landing.Flying? && f == |s.flights| - 1;
      assert Shows(s.flights, f);
      assert AnsweredRotations(s.flights, f + 1) == AnsweredRotations(s.flights, f);
    }
  }

  lemma {:induction false} ServeStep(s: State, f: nat)
    requires Inv(s) && Enabled(s, Serve(f))
    ensures Inv(Apply(s, Serve(f)))
  {
    var s' := Apply(s, Serve(f));
    assert FlightOk(s.flights[f]);
    PresentedBound(s.flights, s.cookie, f);
    CallsKeep(s.flights, s'.flights, s.calls);
    ServeServer(s.flights, s.live, f, s'.flights[f]);
    CookieKeep(s.flights, s'.flights, s.cookie);
    ServeInStep(s, f);
  }

  lemma {:induction false} LandCookie(flights: seq<Flight>, cookie: nat, flight: Flight)
    requires CookieOk(flights, cookie) && |flights| > 0 && !CountsForCookie(flights[|flights| - 1])
    requires flight.presented == flights[|flights| - 1].presented
    ensures CookieOk(flights[|flights| - 1 := flight], if CountsForCookie(flight) then flight.presented + 1 else cookie)
  {
    var f := |flights| - 1;
    var flights' := flights[f := flight];
    forall g | 0 <= g <= f
      ensures Shows(flights', g)
    {
      assert Shows(flights, g);
      AnsweredSame(flights', flights, g);
    }
    AnsweredSame(flights', flights, f);
    assert Shows(flights, f) && flights'[f] == flight;
    assert AnsweredRotations(flights, f + 1) == AnsweredRotations(flights, f);
    assert AnsweredRotations(flights', f + 1) ==
        AnsweredRotations(flights, f) + (if CountsForCookie(flight) then 1 else 0);
  }

  lemma {:induction false} LandInStep(s: State, f: nat, landing: Landing, ok: bool)
    requires InStep(s.flights, s.cookie, s.live, s.reused) && CookieOk(s.flights, s.cookie)
    requires Enabled(s, Land(f, landing, ok)) && f == |s.flights| - 1 && s.flights[f].landing.Flying?
    requires s.flights[f].rotated ==> s.flights[f].served
    ensures InStep(Apply(s, Land(f, landing, ok)).flights, Apply(s, Land(f, landing, ok)).cookie, s.live, s.reused)
  {
    var s' := Apply(s, Land(f, landing, ok));
    if NeverCut(s'.flights) {
      assert forall g :: 0 <= g < f ==> s'.flights[g].landing == s.flights[g].landing;
      assert NeverCut(s.flights);
      assert s'.flights[f].landing == landing;
      assert Shows(s.flights, f);
      assert AnsweredRotations(s.flights, f + 1) == AnsweredRotations(s.flights, f);
    }
  }

  lemma {:induction false} LandStep(s: State, f: nat, landing: Landing, ok: bool)
    requires Inv(s) && Enabled(s, Land(f, landing, ok))
    ensures Inv(Apply(s, Land(f, landing, ok)))
  {
    var s' := Apply(s, Land(f, landing, ok));
    assert FlightOk(s.flights[f]);
    assert f == |s.flights| - 1;
    CallsKeep(s.flights, s'.flights, s.calls);
    UsedKeep(s.flights, s'.flights, s.live);
    LandCookie(s.flights, s.cookie, s'.flights[f]);
    LandInStep(s, f, landing, ok);
  }

  lemma {:induction false} CloseStep(s: State, f: nat)
    requires Inv(s) && Enabled(s, Close(f))
    ensures Inv(Apply(s, Close(f)))
  {
    var s' := Apply(s, Close(f));
    assert FlightOk(s.flights[f]);
    assert f == |s.flights| - 1;
    CallsKeep(s.flights, s'.flights, s.calls);
    UsedKeep(s.flights, s'.flights, s.live);
    CookieKeep(s.flights, s'.flights, s.cookie);
    assert forall g :: 0 <= g < |s.flights| ==> s'.flights[g].landing == s.flights[g].landing;
    assert NeverCut(s'.flights) ==> NeverCut(s.flights);
  }

  lemma {:induction false} InvStep(s: State, a: Action)
    requires Inv(s) && Enabled(s, a)
    ensures Inv(Apply(s, a))
  {
    match a {
      case Ask(i) => AskStep(s, i);
      case Serve(f) => ServeStep(s, f);
      case Land(f, landing, ok) => LandStep(s, f, landing, ok);
      case Close(f) => CloseStep(s, f);
      case _ => CallStep(s, a);
    }
  }

  lemma {:induction false} InvRun(s: State, actions: seq<Action>)
    requires Inv(s) && Runs(s, actions)
    ensures Inv(After(s, actions))
    decreases |actions|
  {
    if actions != [] {
      InvStep(s, actions[0]);
      InvRun(Apply(s, actions[0]), actions[1..]);
    }
  }

  // ------------------------------------------------------------ single flight

  /** A state some run leads to. */
  ghost predicate Reachable(s: State) {
    exists n: nat, token: Token, actions: seq<Action> ::
      !token.Minted? && Runs(Init(n, token), actions) && s == After(Init(n, token), actions)
  }

  lemma {:induction false} ReachableInv(s: State)
    requires Reachable(s)
    ensures Inv(s)
  {
    var n: nat, token: Token, actions: seq<Action> :|
      !token.Minted? && Runs(Init(n, token), actions) && s == After(Init(n, token), actions);
    InvInit(n, token);
    InvRun(Init(n, token), actions);
  }

  /** In every interleaving at most one refresh is outstanding, and a call that needs one while it is joins it. */
  lemma {:induction false} SingleFlight(s: State)
    requires Reachable(s)
    ensures forall f, g ::
              0 <= f < |s.flights| && 0 <= g < |s.flights| && s.flights[f].phase.Out? && s.flights[g].phase.Out? ==>
                  f == g
    ensures forall f: nat, i: nat :: f < |s.flights| && s.flights[f].phase.Out? && Enabled(s, Ask(i)) ==>
              Apply(s, Ask(i)).flights == s.flights && Apply(s, Ask(i)).calls[i].joined == Some(f)
  {
    ReachableInv(s);
  }

  /** A call that is past waiting was replayed exactly when its flight succeeded, so all calls that joined a flight
      fare alike; and it was replayed with that flight's token or a newer one, or one set from outside. */
  lemma {:induction false} JoinersFareAlike(s: State, i: nat, j: nat)
    requires Reachable(s) && i < |s.calls| && j < |s.calls|
    requires s.calls[i].joined.Some? && s.calls[j].joined == s.calls[i].joined
    requires !s.calls[i].stage.Waiting? && !s.calls[j].stage.Waiting?
    ensures ClosedFlight(s, s.calls[i].joined.value)
    ensures s.calls[i].sends == s.calls[j].sends == (if s.flights[s.calls[i].joined.value].phase.ok then 2 else 1)
    ensures s.calls[i].stage.Resent? && s.calls[i].stage.token.Minted? ==>
              s.calls[i].joined.value <= s.calls[i].stage.token.flight
  {
    ReachableInv(s);
    assert CallOk(s.flights, s.calls[i]) && CallOk(s.flights, s.calls[j]);
  }

  /** A replay happens only after its flight's token is in memory, and nothing older can have replaced it. */
  lemma {:induction false} ReplayAfterInstall(s: State, i: nat)
    requires Reachable(s) && Enabled(s, Resume(i)) && Apply(s, Resume(i)).calls[i].stage.Resent?
    ensures var f := s.calls[i].joined.value;
            Succeeded(s.flights, f) && Apply(s, Resume(i)).calls[i].stage.token == s.token
            && (s.token.Minted? ==> f <= s.token.flight)
  {
    ReachableInv(s);
    assert HasInstalled(s.flights[s.calls[i].joined.value]);
  }

  /** No call is sent more than twice or asks for a refresh more than once. */
  lemma {:induction false} SendsBounded(s: State, i: nat)
    requires Reachable(s) && i < |s.calls|
    ensures s.calls[i].sends <= 2 && s.calls[i].asks <= 1
    ensures s.calls[i].sends == 2 ==> s.calls[i].asks == 1
  {
    ReachableInv(s);
    assert CallOk(s.flights, s.calls[i]);
  }

  // ---------------------------------------------------------- rotation safety

  /** Two flights show the server the same refresh token exactly when no rotation was answered from the first up to the
      second. */
  lemma {:induction false} SameTokenShown(s: State, f: nat, g: nat)
    requires Inv(s) && f <= g < |s.flights|
    ensures s.flights[f].presented == s.flights[g].presented <==>
              forall h :: f <= h < g ==> !CountsForCookie(s.flights[h])
  {
    assert Shows(s.flights, f) && Shows(s.flights, g);
    AnsweredBetween(s.flights, f, g);
  }

  lemma {:induction false} AnsweredBetween(flights: seq<Flight>, f: nat, g: nat)
    requires f <= g <= |flights|
    ensures AnsweredRotations(flights, f) <= AnsweredRotations(flights, g)
    ensures AnsweredRotations(flights, f) == AnsweredRotations(flights, g) <==>
              forall h :: f <= h < g ==> !CountsForCookie(flights[h])
  {
    if f < g {
      AnsweredBetween(flights, f, g - 1);
    }
  }

  /** Serving a flight shows the server a used token exactly when another flight has already rotated that token. */
  lemma {:induction false} ReuseExactly(s: State, f: nat)
    requires Inv(s) && Enabled(s, Serve(f)) && !s.reused
    ensures Apply(s, Serve(f)).reused <==> exists g :: g != f && RotatedBy(s.flights, g, s.flights[f].presented)
  {
    PresentedBound(s.flights, s.cookie, f);
    assert FlightOk(s.flights[f]);
    if s.flights[f].presented < s.live {
      assert UsedBy(s.flights, s.flights[f].presented);
    }
  }

  /** ... and then the earlier of the two flights was cut: given up by the client, not answered and not dropped. */
  lemma {:induction false} ReuseNeedsCut(s: State, f: nat, g: nat)
    requires Inv(s) && Enabled(s, Serve(f)) && g != f && RotatedBy(s.flights, g, s.flights[f].presented)
    ensures s.flights[if f < g then f else g].landing.Cut?
  {
    var first, second := if f < g then f else g, if f < g then g else f;
    SameTokenShown(s, first, second);
    assert FlightOk(s.flights[first]);
    assert !CountsForCookie(s.flights[first]);
  }

  /** Both flights reached the server with the same refresh token. */
  predicate SharedToken(flights: seq<Flight>, f: int, g: int) {
    0 <= f < g < |flights| && flights[f].served && flights[g].served && flights[f].presented == flights[g].presented
  }

  ghost predicate TokenServedTwice(flights: seq<Flight>) {
    exists f, g :: SharedToken(flights, f, g)
  }

  /** The server has seen a used token exactly when two flights reached it with one token. */
  ghost predicate ReuseInv(s: State) {
    && (s.reused <==> TokenServedTwice(s.flights))
    && (!s.reused ==> forall f :: 0 <= f < |s.flights| && s.flights[f].served ==> s.flights[f].presented < s.live)
  }

  /** Flights change without reaching the server or showing another token. */
  ghost predicate SameServed(flights: seq<Flight>, flights': seq<Flight>) {
    && |flights| <= |flights'|
    && (forall f :: 0 <= f < |flights| ==>
          flights'[f].served == flights[f].served && flights'[f].presented == flights[f].presented)
    && (forall f :: |flights| <= f < |flights'| ==> !flights'[f].served)
  }

  lemma {:induction false} ReuseKeep(s: State, s': State)
    requires ReuseInv(s) && SameServed(s.flights, s'.flights) && s'.live == s.live && s'.reused == s.reused
    ensures ReuseInv(s')
  {
    if TokenServedTwice(s.flights) {
      var f, g :| SharedToken(s.flights, f, g);
      assert SharedToken(s'.flights, f, g);
    }
    if TokenServedTwice(s'.flights) {
      var f, g :| SharedToken(s'.flights, f, g);
      assert SharedToken(s.flights, f, g);
    }
  }

  /** The server gets a token that no flight has brought before. */
  lemma {:induction false} ServeFirst(s: State, f: nat)
    requires Inv(s) && ReuseInv(s) && Enabled(s, Serve(f)) && !s.reused && s.flights[f].presented == s.live
    ensures ReuseInv(Apply(s, Serve(f)))
  {
    var s' := Apply(s, Serve(f));
    if TokenServedTwice(s'.flights) {
      var g, h :| SharedToken(s'.flights, g, h);
      assert g != f && h != f ==> SharedToken(s.flights, g, h);
    }
  }

  lemma {:induction false} ServeAgain(s: State, f: nat)
    requires Inv(s) && ReuseInv(s) && Enabled(s, Serve(f)) && (s.reused || s.flights[f].presented != s.live)
    ensures ReuseInv(Apply(s, Serve(f)))
  {
    var s' := Apply(s, Serve(f));
    if s.reused {
      var g, h :| SharedToken(s.flights, g, h);
      assert SharedToken(s'.flights, g, h);
    } else {
      PresentedBound(s.flights, s.cookie, f);
      assert UsedBy(s.flights, s.flights[f].presented);
      var g :| RotatedBy(s.flights, g, s.flights[f].presented);
      assert FlightOk(s.flights[g]);
      assert SharedToken(s'.flights, if f < g then f else g, if f < g then g else f);
    }
  }

  lemma {:induction false} ReuseStep(s: State, a: Action)
    requires Inv(s) && ReuseInv(s) && Enabled(s, a)
    ensures ReuseInv(Apply(s, a))
  {
    match a {
      case Serve(f) =>
        if !s.reused && s.flights[f].presented == s.live {
          ServeFirst(s, f);
        } else {
          ServeAgain(s, f);
        }
      case _ => ReuseKeep(s, Apply(s, a));
    }
  }

  lemma {:induction false} ReuseRun(s: State, actions: seq<Action>)
    requires Inv(s) && ReuseInv(s) && Runs(s, actions)
    ensures ReuseInv(After(s, actions))
    decreases |actions|
  {
    if actions != [] {
      InvStep(s, actions[0]);
      ReuseStep(s, actions[0]);
      ReuseRun(Apply(s, actions[0]), actions[1..]);
    }
  }

  /** Two flights reached the server, and from the first up to the second none was answered with a rotation. */
  predicate ServedUnanswered(flights: seq<Flight>, f: int, g: int) {
    && 0 <= f < g < |flights| && flights[f].served && flights[g].served
    && forall h :: f <= h < g ==> !CountsForCookie(flights[h])
  }

  /** Exactly which runs from a valid cookie ever show the server a used token. */
  lemma {:induction false} ReuseRunExact(s: State)
    requires Reachable(s)
    ensures s.reused <==> exists f, g :: ServedUnanswered(s.flights, f, g)
  {
    var n: nat, token: Token, actions: seq<Action> :|
      !token.Minted? && Runs(Init(n, token), actions) && s == After(Init(n, token), actions);
    InvInit(n, token);
    InvRun(Init(n, token), actions);
    ReuseRun(Init(n, token), actions);
    if f, g :| SharedToken(s.flights, f, g) {
      SameTokenShown(s, f, g);
      assert ServedUnanswered(s.flights, f, g);
    }
    if f, g :| ServedUnanswered(s.flights, f, g) {
      SameTokenShown(s, f, g);
      assert SharedToken(s.flights, f, g);
    }
  }

  /** If every refresh request is answered or never reaches the server, no run from a valid cookie shows a used
      token. */
  lemma {:induction false} RotationSafety(s: State)
    requires Reachable(s) && NeverCut(s.flights)
    ensures !s.reused
  {
    ReachableInv(s);
  }

  const SENT_CALL := Call(Sent, None, 1, 0)

  /** Two calls sent, and the same after the first one's refresh was served but cut. */
  const TWO_SENT := State([], None, External(0), 0, 0, false, [SENT_CALL, SENT_CALL])
  const AFTER_CUT := State([Flight(Closed(false), 0, true, true, Cut)], None, External(0), 0, 1, false,
                           [Call(Waiting, Some(0), 1, 1), SENT_CALL])

  lemma {:induction false} CutRun()
    ensures var actions := [Ask(0), Serve(0), Land(0, Cut, false), Close(0)];
            Runs(TWO_SENT, actions) && After(TWO_SENT, actions) == AFTER_CUT
  {
    var s3 := Apply(TWO_SENT, Ask(0));
    var s4 := Apply(s3, Serve(0));
    var s5 := Apply(s4, Land(0, Cut, false));
    assert Apply(s5, Close(0)) == AFTER_CUT;
    RunTwo(s4, Land(0, Cut, false), Close(0));
    RunsCons(s3, Serve(0), [Land(0, Cut, false), Close(0)]);
    RunsCons(TWO_SENT, Ask(0), [Serve(0), Land(0, Cut, false), Close(0)]);
  }

  lemma {:induction false} SecondRefreshRun()
    ensures Runs(AFTER_CUT, [Ask(1), Serve(1)]) && After(AFTER_CUT, [Ask(1), Serve(1)]).reused
  {
    RunTwo(AFTER_CUT, Ask(1), Serve(1));
  }

  lemma {:induction false} SendBoth()
    ensures Runs(Init(2, External(0)), [Send(0), Send(1)])
            && After(Init(2, External(0)), [Send(0), Send(1)]) == TWO_SENT
  {
    var s0 := Init(2, External(0));
    RunTwo(s0, Send(0), Send(1));
    assert Apply(Apply(s0, Send(0)), Send(1)).calls == TWO_SENT.calls;
  }

  /** Otherwise two calls are enough for a reuse: the first one's refresh is cut after the server rotated, and the
      second refreshes too. */
  lemma {:induction false} CutCausesReuse()
    ensures var s0 := Init(2, External(0));
            var actions := [Send(0), Send(1)] + [Ask(0), Serve(0), Land(0, Cut, false), Close(0)] + [Ask(1), Serve(1)];
            Runs(s0, actions) && After(s0, actions).reused
  {
    var s0 := Init(2, External(0));
    SendBoth();
    CutRun();
    SecondRefreshRun();
    RunsConcat(s0, [Send(0), Send(1)], [Ask(0), Serve(0), Land(0, Cut, false), Close(0)]);
    RunsConcat(s0, [Send(0), Send(1)] + [Ask(0), Serve(0), Land(0, Cut, false), Close(0)], [Ask(1), Serve(1)]);
  }

  lemma {:induction false} RunsCons(s: State, a: Action, rest: seq<Action>)
    requires Enabled(s, a) && Runs(Apply(s, a), rest)
    ensures Runs(s, [a] + rest) && After(s, [a] + rest) == After(Apply(s, a), rest)
  {
    assert ([a] + rest)[1..] == rest;
  }

  // -------------------------------------------------------------- termination

  function CallRank(c: Call): nat {
    match c.stage
    case Ready => 7
    case Sent => 6
    case Waiting => 2
    case Resent(_) => 1
    case Done => 0
  }

  function FlightRank(flight: Flight): nat {
    (if flight.served then 0 else 1) + (match flight.phase case Out => 2 case Landed(_) => 1 case Closed(_) => 0)
  }

  function CallsRank(calls: seq<Call>): nat {
    if calls == [] then 0 else CallsRank(calls[..|calls| - 1]) + CallRank(calls[|calls| - 1])
  }

  function FlightsRank(flights: seq<Flight>): nat {
    if flights == [] then 0 else FlightsRank(flights[..|flights| - 1]) + FlightRank(flights[|flights| - 1])
  }

  function Rank(s: State): nat { CallsRank(s.calls) + FlightsRank(s.flights) }

  lemma {:induction false} CallsRankUpdate(calls: seq<Call>, i: nat, c: Call)
    requires i < |calls|
    ensures CallsRank(calls[i := c]) == CallsRank(calls) - CallRank(calls[i]) + CallRank(c)
  {
    var n := |calls| - 1;
    if i < n {
      assert calls[i := c][..n] == calls[..n][i := c];
      CallsRankUpdate(calls[..n], i, c);
    } else {
      assert calls[i := c][..n] == calls[..n];
    }
  }

  lemma {:induction false} FlightsRankUpdate(flights: seq<Flight>, f: nat, flight: Flight)
    requires f < |flights|
    ensures FlightsRank(flights[f := flight]) == FlightsRank(flights) - FlightRank(flights[f]) + FlightRank(flight)
  {
    var n := |flights| - 1;
    if f < n {
      assert flights[f := flight][..n] == flights[..n][f := flight];
      FlightsRankUpdate(flights[..n], f, flight);
    } else {
      assert flights[f := flight][..n] == flights[..n];
    }
  }

  lemma {:induction false} AskRank(s: State, i: nat)
    requires Enabled(s, Ask(i))
    ensures Rank(Apply(s, Ask(i))) < Rank(s)
  {
    var s' := Apply(s, Ask(i));
    CallsRankUpdate(s.calls, i, s'.calls[i]);
    if s.open.None? {
      assert s'.flights[..|s.flights|] == s.flights;
    }
  }

  lemma {:induction false} CallMoveRank(s: State, a: Action)
    requires Enabled(s, a) && MovesOneCall(a) && !a.SetToken?
    ensures Rank(Apply(s, a)) < Rank(s)
  {
    CallsRankUpdate(s.calls, a.i, Apply(s, a).calls[a.i]);
  }

  /** Every step but an outside change of the token uses up rank. */
  lemma {:induction false} RankFalls(s: State, a: Action)
    requires Enabled(s, a)
    ensures a.SetToken? ==> Rank(Apply(s, a)) == Rank(s)
    ensures !a.SetToken? ==> Rank(Apply(s, a)) < Rank(s)
  {
    var s' := Apply(s, a);
    match a {
      case Ask(i) => AskRank(s, i);
      case Serve(f) => FlightsRankUpdate(s.flights, f, s'.flights[f]);
      case Land(f, landing, ok) => FlightsRankUpdate(s.flights, f, s'.flights[f]);
      case Close(f) => FlightsRankUpdate(s.flights, f, s'.flights[f]);
      case SetToken(token) =>
      case _ => CallMoveRank(s, a);
    }
  }

  /** The steps of a run that are not outside changes of the token. */
  function ProtocolSteps(actions: seq<Action>): nat {
    if actions == [] then 0 else (if actions[0].SetToken? then 0 else 1) + ProtocolSteps(actions[1..])
  }

  lemma {:induction false} StepsWithinRank(s: State, actions: seq<Action>)
    requires Runs(s, actions)
    ensures ProtocolSteps(actions) + Rank(After(s, actions)) <= Rank(s)
    decreases |actions|
  {
    if actions != [] {
      RankFalls(s, actions[0]);
      StepsWithinRank(Apply(s, actions[0]), actions[1..]);
    }
  }

  lemma {:induction false} InitRank(n: nat)
    ensures CallsRank(seq(n, _ => FRESH_CALL)) == 7 * n
  {
    if n > 0 {
      assert seq(n, _ => FRESH_CALL)[..n - 1] == seq(n - 1, _ => FRESH_CALL);
      InitRank(n - 1);
    }
  }

  lemma {:induction false} SomeStep(s: State, i: nat)
    requires CallsOk(s.flights, s.calls) && i < |s.calls| && !s.calls[i].stage.Done?
    ensures exists a :: Enabled(s, a) && !a.SetToken?
  {
    assert CallOk(s.flights, s.calls[i]);
    match s.calls[i].stage {
      case Ready => assert Enabled(s, Send(i));
      case Sent => assert Enabled(s, Finish(i));
      case Resent(_) => assert Enabled(s, Settle(i));
      case Waiting =>
        var f := s.calls[i].joined.value;
        match s.flights[f].phase {
          case Out => assert Enabled(s, Land(f, Cut, false));
          case Landed(_) => assert Enabled(s, Close(f));
          case Closed(_) => assert Enabled(s, Resume(i));
        }
    }
  }

  /** Every run of `n` calls takes at most 7n steps, and while a call is unfinished another step can be taken:
      nothing waits for itself, and every call ends once its requests are answered or given up. */
  lemma {:induction false} EveryCallEnds(n: nat, token: Token, actions: seq<Action>)
    requires !token.Minted? && Runs(Init(n, token), actions)
    ensures ProtocolSteps(actions) <= 7 * n
    ensures var s := After(Init(n, token), actions);
            (exists i :: 0 <= i < |s.calls| && !s.calls[i].stage.Done?) ==> exists a :: Enabled(s, a) && !a.SetToken?
  {
    var s := After(Init(n, token), actions);
    InitRank(n);
    StepsWithinRank(Init(n, token), actions);
    InvInit(n, token);
    InvRun(Init(n, token), actions);
    if i :| 0 <= i < |s.calls| && !s.calls[i].stage.Done? {
      SomeStep(s, i);
    }
  }

  // ------------------------------------------------------- runs put together

  lemma {:induction false} RunsConcat(s: State, a: seq<Action>, b: seq<Action>)
    requires Runs(s, a) && Runs(After(s, a), b)
    ensures Runs(s, a + b) && After(s, a + b) == After(After(s, a), b)
    decreases |a|
  {
    if a == [] {
      assert a + b == b;
    } else {
      assert (a + b)[1..] == a[1..] + b;
      RunsConcat(Apply(s, a[0]), a[1..], b);
    }
  }

  lemma {:induction false} RunOne(s: State, a: Action)
    requires Enabled(s, a)
    ensures Runs(s, [a]) && After(s, [a]) == Apply(s, a)
  {
    RunsCons(s, a, []);
    assert [a] + [] == [a];
  }

  lemma {:induction false} RunTwo(s: State, a: Action, b: Action)
    requires Enabled(s, a) && Enabled(Apply(s, a), b)
    ensures Runs(s, [a, b]) && After(s, [a, b]) == Apply(Apply(s, a), b)
  {
    RunOne(Apply(s, a), b);
    RunsCons(s, a, [b]);
    assert [a] + [b] == [a, b];
  }
}
