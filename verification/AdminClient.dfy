/** The admin panel's client, cut at its awaits, as a second refinement of the refresh protocol. */
module AdminClient {
  import opened Wrappers
  import P = RefreshProtocol

  // ------------------------------------------------------------- one response

  /** The body of a response: not JSON, JSON null, or any other JSON value by what it has: a truthy `success`, `data`,
      and an `error` that is there (with its code, a missing one being empty). */
  datatype Body = NotJson | JsonNull | Envelope(success: bool, hasData: bool, error: Option<string>)

  datatype Reply = Failed | Http(status: int, body: Body)

  /** How a call ends: data, an `ApiError`, the TypeError of an unreadable envelope, or the error `fetch` threw. */
  datatype Result = Resolved(hasData: bool) | ApiError(status: int, code: string) | Crash | FetchError

  const TERMINAL_AUTH_CODES := {"AUTH_TOKEN_INVALID", "AUTH_SESSION_REVOKED", "AUTH_REFRESH_REUSED"}

  predicate IsAuthPath(path: string) { "/auth/" <= path }

  predicate IsOk(status: int) { 200 <= status <= 299 }

  /** `parseEnvelope`. */
  function ParseEnvelope(reply: Reply): Result {
    match reply
    case Failed => FetchError
    case Http(status, body) =>
      if status == 204 then Resolved(false)
      else
        match body
        case NotJson => ApiError(status, "API_MALFORMED_RESPONSE")
        case JsonNull => Crash
        case Envelope(success, hasData, error) =>
          if !success then (if error.Some? then ApiError(status, error.value) else Crash)
          else if IsOk(status) then Resolved(hasData)
          else ApiError(status, "API_UNEXPECTED_STATUS")
  }

  /** The code peeked from a 401: empty when the body has none. */
  function PeekCode(body: Body): string {
    if body.Envelope? && body.error.Some? then body.error.value else ""
  }

  predicate Unauthorized(reply: Reply) { reply.Http? && reply.status == 401 }

  /** Whether the refresh flight gets a token out of its response. */
  predicate RefreshSucceeds(reply: Reply) {
    reply.Http? && IsOk(reply.status) && ParseEnvelope(reply) == Resolved(true)
  }

  /** What a response comes to: data from a status 200 to 299 that has no content or a truthy `success`, a TypeError
      from an unreadable value, the error `fetch` threw, and an `ApiError` otherwise. */
  lemma {:induction false} ParseExact(reply: Reply)
    ensures ParseEnvelope(reply).Resolved? <==>
              reply.Http? && (reply.status == 204
                              || (200 <= reply.status <= 299 && reply.body.Envelope? && reply.body.success))
    ensures ParseEnvelope(reply).Resolved? ==>
              ParseEnvelope(reply).hasData == (reply.status != 204 && reply.body.hasData)
    ensures ParseEnvelope(reply) == Crash <==>
              reply.Http? && reply.status != 204
              && (reply.body.JsonNull? || (reply.body.Envelope? && !reply.body.success && reply.body.error.None?))
    ensures ParseEnvelope(reply) == FetchError <==> reply == Failed
    ensures ParseEnvelope(reply).ApiError? ==>
              ParseEnvelope(reply) == ApiError(reply.status, match reply.body
                                                             case NotJson => "API_MALFORMED_RESPONSE"
                                                             case Envelope(false, _, Some(code)) => code
                                                             case _ => "API_UNEXPECTED_STATUS")
  {
  }

  /** A refresh succeeds exactly on a truthy `success` with data and a status from 200 to 299 other than 204. */
  lemma {:induction false} RefreshSucceedsExact(reply: Reply)
    ensures RefreshSucceeds(reply) <==>
              && reply.Http? && 200 <= reply.status <= 299 && reply.status != 204
              && reply.body.Envelope? && reply.body.success && reply.body.hasData
  {
    ParseExact(reply);
  }

  // ---------------------------------------------------------------- all calls

  /** `Peeking` and `Waiting` keep the 401 that the call will be parsed from if it is not replayed. */
  datatype Stage =
    | Ready
    | Sent
    | Peeking(first: Reply)
    | Waiting(first: Reply)
    | Resent(token: P.Token)
    | Done(last: Reply)

  /** `held` records that the first answer was a 401 while a token was in memory. */
  datatype Call = Call(path: string, stage: Stage, joined: Option<nat>, sends: nat, asks: nat, alarms: nat, held: bool)

  datatype State = State(flights: seq<P.Flight>, refreshInFlight: Option<nat>, accessToken: P.Token,
                         cookie: nat, live: nat, reused: bool, calls: seq<Call>)

  /** The refresh function decides, installs the token and clears the shared promise without an await in between. */
  datatype Action =
    | Start(i: nat)
    | FirstAnswer(i: nat, reply: Reply)
    | Peek(i: nat)
    | Serve(f: nat)
    | RefreshAnswer(f: nat, landing: P.Landing, reply: Reply)
    | Resume(i: nat)
    | LastAnswer(i: nat, reply: Reply)
    | SetAccessToken(token: P.Token)

  predicate Enabled(s: State, a: Action) {
    match a
    case Start(i) => i < |s.calls| && s.calls[i].stage == Ready
    case FirstAnswer(i, reply) => i < |s.calls| && s.calls[i].stage == Sent
    case Peek(i) => i < |s.calls| && s.calls[i].stage.Peeking?
    case Serve(f) => f < |s.flights| && !s.flights[f].served && s.flights[f].landing != P.Dropped
    case RefreshAnswer(f, landing, reply) =>
      && f < |s.flights| && s.flights[f].phase.Out?
      && (match landing
          case Flying => false
          case Answered => reply.Http? && s.flights[f].served && (RefreshSucceeds(reply) ==> s.flights[f].rotated)
          case Dropped => !s.flights[f].served && !RefreshSucceeds(reply)
          case Cut => !RefreshSucceeds(reply))
    case Resume(i) =>
      i < |s.calls| && s.calls[i].stage.Waiting? && s.calls[i].joined.Some?
      && s.calls[i].joined.value < |s.flights| && s.flights[s.calls[i].joined.value].phase.Closed?
    case LastAnswer(i, reply) => i < |s.calls| && s.calls[i].stage.Resent?
    case SetAccessToken(token) => !token.Minted?
  }

  /** `setAccessToken(null); onUnauthorized?.()`, and the call ends from `last`. */
  function SignOut(s: State, i: nat, last: Reply): State
    requires i < |s.calls|
  {
    s.(accessToken := P.NoToken,
       calls := s.calls[i := s.calls[i].(stage := Done(last), alarms := s.calls[i].alarms + 1)])
  }

  function Apply(s: State, a: Action): State
    requires Enabled(s, a)
  {
    match a
    case Start(i) => s.(calls := s.calls[i := s.calls[i].(stage := Sent, sends := s.calls[i].sends + 1)])
    case FirstAnswer(i, reply) =>
      var c := s.calls[i];
      if Unauthorized(reply) && !IsAuthPath(c.path) && s.accessToken != P.NoToken
      then s.(calls := s.calls[i := c.(stage := Peeking(reply), held := true)])
      else s.(calls := s.calls[i := c.(stage := Done(reply))])
    case Peek(i) =>
      var c := s.calls[i];
      var first := c.stage.first;
      if first.Http? && PeekCode(first.body) in TERMINAL_AUTH_CODES then SignOut(s, i, first)
      else
        var waiting := c.(stage := Waiting(first), asks := c.asks + 1);
        if s.refreshInFlight.Some? then s.(calls := s.calls[i := waiting.(joined := s.refreshInFlight)])
        else
          var f := |s.flights|;
          s.(flights := s.flights + [P.Flight(P.Out, s.cookie, false, false, P.Flying)], refreshInFlight := Some(f),
             calls := s.calls[i := waiting.(joined := Some(f))])
    case Serve(f) =>
      var flight := s.flights[f];
      var rotates := flight.presented == s.live && !s.reused;
      s.(flights := s.flights[f := flight.(served := true, rotated := rotates)],
         live := if rotates then s.live + 1 else s.live, reused := s.reused || flight.presented != s.live)
    case RefreshAnswer(f, landing, reply) =>
      var flight, ok := s.flights[f], RefreshSucceeds(reply);
      s.(flights := s.flights[f := flight.(phase := P.Closed(ok), landing := landing)],
         cookie := if landing.Answered? && flight.rotated then flight.presented + 1 else s.cookie,
         accessToken := if ok then P.Minted(f) else s.accessToken,
         refreshInFlight := None)
    case Resume(i) =>
      var c := s.calls[i];
      if s.flights[c.joined.value].phase.ok
      then s.(calls := s.calls[i := c.(stage := Resent(s.accessToken), sends := c.sends + 1)])
      else SignOut(s, i, c.stage.first)
    case LastAnswer(i, reply) =>
      if Unauthorized(reply) then SignOut(s, i, reply)
      else s.(calls := s.calls[i := s.calls[i].(stage := Done(reply))])
    case SetAccessToken(token) => s.(accessToken := token)
  }

  function Init(paths: seq<string>, token: P.Token): State {
    State([], None, token, 0, 0, false,
          seq(|paths|, i requires 0 <= i < |paths| => Call(paths[i], Ready, None, 0, 0, 0, false)))
  }

  ghost predicate Runs(s: State, actions: seq<Action>)
    decreases |actions|
  {
    actions == [] || (Enabled(s, actions[0]) && Runs(Apply(s, actions[0]), actions[1..]))
  }

  ghost function After(s: State, actions: seq<Action>): State
    requires Runs(s, actions)
    decreases |actions|
  {
    if actions == [] then s else After(Apply(s, actions[0]), actions[1..])
  }

  // ---------------------------------------------------------------- refinement

  function AbsStage(stage: Stage): P.Stage {
    match stage
    case Ready => P.Ready
    case Sent => P.Sent
    case Peeking(_) => P.Sent
    case Waiting(_) => P.Waiting
    case Resent(token) => P.Resent(token)
    case Done(_) => P.Done
  }

  function AbsCall(c: Call): P.Call { P.Call(AbsStage(c.stage), c.joined, c.sends, c.asks) }

  function AbsCalls(calls: seq<Call>): (r: seq<P.Call>)
    ensures |r| == |calls| && forall i :: 0 <= i < |calls| ==> r[i] == AbsCall(calls[i])
  {
    seq(|calls|, i requires 0 <= i < |calls| => AbsCall(calls[i]))
  }

  function Abs(s: State): P.State {
    P.State(s.flights, s.refreshInFlight, s.accessToken, s.cookie, s.live, s.reused, AbsCalls(s.calls))
  }

  lemma AbsUpdate(calls: seq<Call>, i: nat, c: Call)
    requires i < |calls|
    ensures AbsCalls(calls[i := c]) == AbsCalls(calls)[i := AbsCall(c)]
  {
  }

  /** The protocol steps that a step of the client is: none while it peeks, two when it signs out or when a
      refresh decides and closes at once. */
  function AbsStep(s: State, a: Action): seq<P.Action>
    requires Enabled(s, a)
  {
    match a
    case Start(i) => [P.Send(i)]
    case FirstAnswer(i, reply) => if Apply(s, a).calls[i].stage.Peeking? then [] else [P.Finish(i)]
    case Peek(i) => if Apply(s, a).calls[i].stage.Waiting? then [P.Ask(i)] else [P.Finish(i), P.SetToken(P.NoToken)]
    case Serve(f) => [P.Serve(f)]
    case RefreshAnswer(f, landing, reply) => [P.Land(f, landing, RefreshSucceeds(reply)), P.Close(f)]
    case Resume(i) => if Apply(s, a).calls[i].stage.Resent? then [P.Resume(i)] else [P.Resume(i), P.SetToken(P.NoToken)]
    case LastAnswer(i, reply) => if Unauthorized(reply) then [P.Settle(i), P.SetToken(P.NoToken)] else [P.Settle(i)]
    case SetAccessToken(token) => [P.SetToken(token)]
  }

  ghost predicate Refined(s: State, a: Action)
    requires Enabled(s, a)
  {
    P.Runs(Abs(s), AbsStep(s, a)) && P.After(Abs(s), AbsStep(s, a)) == Abs(Apply(s, a))
  }

  lemma {:induction false} RefinedByNone(s: State, a: Action)
    requires Enabled(s, a) && AbsStep(s, a) == [] && Abs(Apply(s, a)) == Abs(s)
    ensures Refined(s, a)
  {
  }

  lemma {:induction false} RefinedByOne(s: State, a: Action, p: P.Action)
    requires Enabled(s, a) && AbsStep(s, a) == [p] && P.Enabled(Abs(s), p) && P.Apply(Abs(s), p) == Abs(Apply(s, a))
    ensures Refined(s, a)
  {
    P.RunOne(Abs(s), p);
  }

  lemma {:induction false} RefinedByTwo(s: State, a: Action, p: P.Action, q: P.Action)
    requires Enabled(s, a) && AbsStep(s, a) == [p, q] && P.Enabled(Abs(s), p) && P.Enabled(P.Apply(Abs(s), p), q)
    requires P.Apply(P.Apply(Abs(s), p), q) == Abs(Apply(s, a))
    ensures Refined(s, a)
  {
    P.RunTwo(Abs(s), p, q);
  }

  lemma {:induction false} StartRefines(s: State, i: nat)
    requires Enabled(s, Start(i))
    ensures Refined(s, Start(i))
  {
    AbsUpdate(s.calls, i, Apply(s, Start(i)).calls[i]);
    RefinedByOne(s, Start(i), P.Send(i));
  }

  lemma {:induction false} FirstAnswerRefines(s: State, i: nat, reply: Reply)
    requires Enabled(s, FirstAnswer(i, reply))
    ensures Refined(s, FirstAnswer(i, reply))
  {
    var a := FirstAnswer(i, reply);
    AbsUpdate(s.calls, i, Apply(s, a).calls[i]);
    if Apply(s, a).calls[i].stage.Peeking? {
      assert AbsCalls(s.calls)[i := AbsCall(s.calls[i])] == AbsCalls(s.calls);
      RefinedByNone(s, a);
    } else {
      RefinedByOne(s, a, P.Finish(i));
    }
  }

  lemma {:induction false} PeekRefines(s: State, i: nat)
    requires Enabled(s, Peek(i))
    ensures Refined(s, Peek(i))
  {
    AbsUpdate(s.calls, i, Apply(s, Peek(i)).calls[i]);
    if Apply(s, Peek(i)).calls[i].stage.Waiting? {
      RefinedByOne(s, Peek(i), P.Ask(i));
    } else {
      RefinedByTwo(s, Peek(i), P.Finish(i), P.SetToken(P.NoToken));
    }
  }

  lemma {:induction false} RefreshAnswerRefines(s: State, f: nat, landing: P.Landing, reply: Reply)
    requires Enabled(s, RefreshAnswer(f, landing, reply))
    ensures Refined(s, RefreshAnswer(f, landing, reply))
  {
    var a, p := RefreshAnswer(f, landing, reply), P.Land(f, landing, RefreshSucceeds(reply));
    var middle := P.Apply(Abs(s), p);
    assert P.Apply(middle, P.Close(f)).flights == Apply(s, a).flights;
    RefinedByTwo(s, a, p, P.Close(f));
  }

  lemma {:induction false} ResumeRefines(s: State, i: nat)
    requires Enabled(s, Resume(i))
    ensures Refined(s, Resume(i))
  {
    AbsUpdate(s.calls, i, Apply(s, Resume(i)).calls[i]);
    if Apply(s, Resume(i)).calls[i].stage.Resent? {
      RefinedByOne(s, Resume(i), P.Resume(i));
    } else {
      RefinedByTwo(s, Resume(i), P.Resume(i), P.SetToken(P.NoToken));
    }
  }

  lemma {:induction false} LastAnswerRefines(s: State, i: nat, reply: Reply)
    requires Enabled(s, LastAnswer(i, reply))
    ensures Refined(s, LastAnswer(i, reply))
  {
    var a := LastAnswer(i, reply);
    AbsUpdate(s.calls, i, Apply(s, a).calls[i]);
    if Unauthorized(reply) {
      RefinedByTwo(s, a, P.Settle(i), P.SetToken(P.NoToken));
    } else {
      RefinedByOne(s, a, P.Settle(i));
    }
  }

  /** Every step of the admin client is a run of at most two steps of the protocol. */
  lemma {:induction false} StepRefines(s: State, a: Action)
    requires Enabled(s, a)
    ensures Refined(s, a)
  {
    match a {
      case Start(i) => StartRefines(s, i);
      case FirstAnswer(i, reply) => FirstAnswerRefines(s, i, reply);
      case Peek(i) => PeekRefines(s, i);
      case Serve(f) => RefinedByOne(s, a, P.Serve(f));
      case RefreshAnswer(f, landing, reply) => RefreshAnswerRefines(s, f, landing, reply);
      case Resume(i) => ResumeRefines(s, i);
      case LastAnswer(i, reply) => LastAnswerRefines(s, i, reply);
      case SetAccessToken(token) => RefinedByOne(s, a, P.SetToken(token));
    }
  }

  lemma {:induction false} InitRefines(paths: seq<string>, token: P.Token)
    ensures Abs(Init(paths, token)) == P.Init(|paths|, token)
  {
    assert AbsCalls(Init(paths, token).calls) == P.Init(|paths|, token).calls;
  }

  ghost function AbsActions(s: State, actions: seq<Action>): seq<P.Action>
    requires Runs(s, actions)
    decreases |actions|
  {
    if actions == [] then [] else AbsStep(s, actions[0]) + AbsActions(Apply(s, actions[0]), actions[1..])
  }

  /** Every run of the admin client is a run of the protocol. */
  lemma {:induction false} RunRefines(s: State, actions: seq<Action>)
    requires Runs(s, actions)
    ensures P.Runs(Abs(s), AbsActions(s, actions)) && P.After(Abs(s), AbsActions(s, actions)) == Abs(After(s, actions))
    decreases |actions|
  {
    if actions != [] {
      StepRefines(s, actions[0]);
      RunRefines(Apply(s, actions[0]), actions[1..]);
      P.RunsConcat(Abs(s), AbsStep(s, actions[0]), AbsActions(Apply(s, actions[0]), actions[1..]));
    }
  }

  ghost predicate Reachable(s: State) {
    exists paths: seq<string>, token: P.Token, actions: seq<Action> ::
      !token.Minted? && Runs(Init(paths, token), actions) && s == After(Init(paths, token), actions)
  }

  /** So the admin client, too, has every property of the protocol. */
  lemma {:induction false} AdminIsProtocol(s: State)
    requires Reachable(s)
    ensures P.Reachable(Abs(s))
  {
    var paths: seq<string>, token: P.Token, actions: seq<Action> :|
      !token.Minted? && Runs(Init(paths, token), actions) && s == After(Init(paths, token), actions);
    InitRefines(paths, token);
    RunRefines(Init(paths, token), actions);
  }

  // ----------------------------------------------------------------- lifecycle

  /** A call keeps its first 401 until it is replayed; it has fired the handler once if it ended from a 401 that
      began with a token held, and not otherwise. */
  predicate AlarmsOk(c: Call) {
    && (c.stage.Ready? || c.stage.Sent? ==> !c.held && c.alarms == 0)
    && (c.stage.Peeking? || c.stage.Waiting? ==> c.held && c.alarms == 0 && Unauthorized(c.stage.first))
    && (c.stage.Resent? ==> c.held && c.alarms == 0)
    && (c.stage.Done? ==> c.alarms == (if c.held && Unauthorized(c.stage.last) then 1 else 0))
    && (IsAuthPath(c.path) ==> !c.held && c.asks == 0)
  }

  ghost predicate Lifecycle(s: State) {
    forall i :: 0 <= i < |s.calls| ==> AlarmsOk(s.calls[i])
  }

  lemma {:induction false} LifecycleStep(s: State, a: Action)
    requires Lifecycle(s) && Enabled(s, a)
    ensures Lifecycle(Apply(s, a))
  {
    var s' := Apply(s, a);
    forall i | 0 <= i < |s'.calls|
      ensures AlarmsOk(s'.calls[i])
    {
      assert AlarmsOk(s.calls[i]);
    }
  }

  lemma {:induction false} LifecycleRun(s: State, actions: seq<Action>)
    requires Lifecycle(s) && Runs(s, actions)
    ensures Lifecycle(After(s, actions))
    decreases |actions|
  {
    if actions != [] {
      LifecycleStep(s, actions[0]);
      LifecycleRun(Apply(s, actions[0]), actions[1..]);
    }
  }

  /** Every call is sent at most twice and refreshes at most once, and the handler fires exactly once for the calls
      that end from a 401 after a 401 that found a token in memory, and never for others. */
  lemma {:induction false} CallLifecycle(s: State, i: nat)
    requires Reachable(s) && i < |s.calls|
    ensures var c := s.calls[i];
            && c.sends <= 2 && c.asks <= 1 && (IsAuthPath(c.path) ==> c.asks == 0 && !c.held)
            && c.alarms == (if c.stage.Done? && c.held && Unauthorized(c.stage.last) then 1 else 0)
            && (c.stage.Done? && Unauthorized(c.stage.last) ==> EndsUnauthorized(c.stage.last))
  {
    AdminIsProtocol(s);
    P.SendsBounded(Abs(s), i);
    var paths: seq<string>, token: P.Token, actions: seq<Action> :|
      !token.Minted? && Runs(Init(paths, token), actions) && s == After(Init(paths, token), actions);
    LifecycleRun(Init(paths, token), actions);
    assert AlarmsOk(s.calls[i]);
    if s.calls[i].stage.Done? && Unauthorized(s.calls[i].stage.last) {
      UnauthorizedParses(s.calls[i].stage.last);
    }
  }

  /** Whether `parseEnvelope` crashes on a 401: null, or neither a success nor an error in it. */
  predicate Unreadable(body: Body) {
    body.JsonNull? || (body.Envelope? && !body.success && body.error.None?)
  }

  /** A 401 is thrown as an `ApiError` of its status, exactly unless it is unreadable: then as a TypeError. */
  ghost predicate EndsUnauthorized(reply: Reply)
    requires Unauthorized(reply)
  {
    && (Unreadable(reply.body) <==> ParseEnvelope(reply) == Crash)
    && (!Unreadable(reply.body) <==> exists code :: ParseEnvelope(reply) == ApiError(401, code))
  }

  lemma UnauthorizedParses(reply: Reply)
    requires Unauthorized(reply)
    ensures EndsUnauthorized(reply)
  {
    if !Unreadable(reply.body) {
      var code := match reply.body
                  case NotJson => "API_MALFORMED_RESPONSE"
                  case Envelope(success, _, error) => if success then "API_UNEXPECTED_STATUS" else error.value;
      assert ParseEnvelope(reply) == ApiError(401, code);
    }
  }

  /** The step in which a call fires the handler leaves no token in memory, and ends the call. */
  lemma {:induction false} AlarmClearsToken(s: State, a: Action, i: nat)
    requires Enabled(s, a) && i < |s.calls| && Apply(s, a).calls[i].alarms > s.calls[i].alarms
    ensures Apply(s, a).accessToken == P.NoToken && Apply(s, a).calls[i].stage.Done?
  {
  }

  /** Without a token a 401 neither refreshes nor fires the handler, whatever its code. */
  lemma {:induction false} NoTokenNoRefresh(s: State, i: nat, reply: Reply)
    requires Enabled(s, FirstAnswer(i, reply)) && s.accessToken == P.NoToken
    ensures Apply(s, FirstAnswer(i, reply)) == s.(calls := s.calls[i := s.calls[i].(stage := Done(reply))])
  {
  }

  // -------------------------------------------------------------- termination

  /** The steps of a run that are not outside changes of the token. */
  function ClientSteps(actions: seq<Action>): nat {
    if actions == [] then 0 else (if actions[0].SetAccessToken? then 0 else 1) + ClientSteps(actions[1..])
  }

  function Unanswered(c: Call): nat { if c.stage.Ready? || c.stage.Sent? then 1 else 0 }

  function CountUnanswered(calls: seq<Call>): nat {
    if calls == [] then 0 else CountUnanswered(calls[..|calls| - 1]) + Unanswered(calls[|calls| - 1])
  }

  lemma {:induction false} CountUpdate(calls: seq<Call>, i: nat, c: Call)
    requires i < |calls|
    ensures CountUnanswered(calls[i := c]) == CountUnanswered(calls) - Unanswered(calls[i]) + Unanswered(c)
  {
    var n := |calls| - 1;
    if i < n {
      assert calls[i := c][..n] == calls[..n][i := c];
      CountUpdate(calls[..n], i, c);
    } else {
      assert calls[i := c][..n] == calls[..n];
    }
  }

  lemma {:induction false} CountAtMost(calls: seq<Call>)
    ensures CountUnanswered(calls) <= |calls|
  {
    if calls != [] {
      CountAtMost(calls[..|calls| - 1]);
    }
  }

  lemma {:induction false} StepsOfShort(p: P.Action, q: P.Action)
    ensures P.ProtocolSteps([]) == 0
    ensures P.ProtocolSteps([p]) == (if p.SetToken? then 0 else 1)
    ensures P.ProtocolSteps([p, q]) == P.ProtocolSteps([p]) + P.ProtocolSteps([q])
  {
    assert [p][1..] == [] && [q][1..] == [] && [p, q][1..] == [q];
  }

  lemma {:induction false} StepsOfAbsStep(s: State, a: Action)
    requires Enabled(s, a)
    ensures P.ProtocolSteps(AbsStep(s, a)) >=
            if a.SetAccessToken? || (a.FirstAnswer? && Apply(s, a).calls[a.i].stage.Peeking?) then 0 else 1
  {
    var steps := AbsStep(s, a);
    if |steps| == 1 {
      assert steps == [steps[0]];
      StepsOfShort(steps[0], steps[0]);
    } else if |steps| == 2 {
      assert steps == [steps[0], steps[1]];
      StepsOfShort(steps[0], steps[1]);
    }
  }

  lemma {:induction false} UnansweredFalls(s: State, a: Action)
    requires Enabled(s, a)
    ensures CountUnanswered(Apply(s, a).calls) + (if a.FirstAnswer? then 1 else 0) <= CountUnanswered(s.calls)
  {
    if a.Start? || a.FirstAnswer? || a.Peek? || a.Resume? || a.LastAnswer? {
      CountUpdate(s.calls, a.i, Apply(s, a).calls[a.i]);
    }
  }

  /** A step is a step of the protocol, or the first answer of a call, or an outside change of the token. */
  lemma {:induction false} StepCounts(s: State, a: Action)
    requires Enabled(s, a)
    ensures (if a.SetAccessToken? then 0 else 1) + CountUnanswered(Apply(s, a).calls)
            <= CountUnanswered(s.calls) + P.ProtocolSteps(AbsStep(s, a))
  {
    StepsOfAbsStep(s, a);
    UnansweredFalls(s, a);
  }

  lemma {:induction false} StepsConcat(a: seq<P.Action>, b: seq<P.Action>)
    ensures P.ProtocolSteps(a + b) == P.ProtocolSteps(a) + P.ProtocolSteps(b)
  {
    if a == [] {
      assert a + b == b;
    } else {
      assert (a + b)[1..] == a[1..] + b;
      StepsConcat(a[1..], b);
    }
  }

  lemma {:induction false} StepsCount(s: State, actions: seq<Action>)
    requires Runs(s, actions)
    ensures ClientSteps(actions) <= CountUnanswered(s.calls) + P.ProtocolSteps(AbsActions(s, actions))
    decreases |actions|
  {
    if actions != [] {
      StepCounts(s, actions[0]);
      StepsCount(Apply(s, actions[0]), actions[1..]);
      StepsConcat(AbsStep(s, actions[0]), AbsActions(Apply(s, actions[0]), actions[1..]));
    }
  }

  /** Every admin call ends: at most eight steps a call, and a step can be taken while one is unfinished. */
  lemma {:induction false} EveryCallEnds(paths: seq<string>, token: P.Token, actions: seq<Action>)
    requires !token.Minted? && Runs(Init(paths, token), actions)
    ensures ClientSteps(actions) <= 8 * |paths|
    ensures var s := After(Init(paths, token), actions);
            (exists i :: 0 <= i < |s.calls| && !s.calls[i].stage.Done?) ==>
                exists a :: Enabled(s, a) && !a.SetAccessToken?
  {
    var s0 := Init(paths, token);
    var s := After(s0, actions);
    InitRefines(paths, token);
    RunRefines(s0, actions);
    StepsCount(s0, actions);
    CountAtMost(s0.calls);
    P.EveryCallEnds(|paths|, token, AbsActions(s0, actions));
    if i :| 0 <= i < |s.calls| && !s.calls[i].stage.Done? {
      P.InvInit(|paths|, token);
      P.InvRun(Abs(s0), AbsActions(s0, actions));
      NoneLandedRun(s0, actions);
      SomeStep(s, i);
    }
  }

  /** A refresh here decides and closes in one step, so none is ever seen in between. */
  ghost predicate NoneLanded(s: State) {
    forall f :: 0 <= f < |s.flights| ==> !s.flights[f].phase.Landed?
  }

  lemma {:induction false} NoneLandedRun(s: State, actions: seq<Action>)
    requires Runs(s, actions) && NoneLanded(s)
    ensures NoneLanded(After(s, actions))
    decreases |actions|
  {
    if actions != [] {
      NoneLandedRun(Apply(s, actions[0]), actions[1..]);
    }
  }

  lemma {:induction false} SomeStep(s: State, i: nat)
    requires P.Inv(Abs(s)) && NoneLanded(s) && i < |s.calls| && !s.calls[i].stage.Done?
    ensures exists a :: Enabled(s, a) && !a.SetAccessToken?
  {
    assert P.CallOk(s.flights, Abs(s).calls[i]);
    match s.calls[i].stage {
      case Ready => assert Enabled(s, Start(i));
      case Sent => assert Enabled(s, FirstAnswer(i, Failed));
      case Peeking(_) => assert Enabled(s, Peek(i));
      case Resent(_) => assert Enabled(s, LastAnswer(i, Failed));
      case Waiting(_) =>
        var f := s.calls[i].joined.value;
        if s.flights[f].phase.Out? {
          assert Enabled(s, RefreshAnswer(f, P.Cut, Failed));
        } else {
          assert Enabled(s, Resume(i));
        }
    }
  }

  // ------------------------------------------------------- runs put together

  lemma {:induction false} RunsConcat(s: State, a: seq<Action>, b: seq<Action>)
    requires Runs(s, a) && Runs(After(s, a), b)
    ensures Runs(s, a + b) && After(s, a + b) == After(After(s, a), b)
    decreases |a|
  {
    if a == [] {
      assert a + b == b;
    } else {
      assert (a + b)[1..] == a[1..] + b;
      RunsConcat(Apply(s, a[0]), a[1..], b);
    }
  }

  lemma {:induction false} RunOne(s: State, a: Action)
    requires Enabled(s, a)
    ensures Runs(s, [a]) && After(s, [a]) == Apply(s, a)
  {
    assert [a][1..] == [];
  }

  lemma {:induction false} RunTwo(s: State, a: Action, b: Action)
    requires Enabled(s, a) && Enabled(Apply(s, a), b)
    ensures Runs(s, [a, b]) && After(s, [a, b]) == Apply(Apply(s, a), b)
  {
    RunOne(s, a);
    RunOne(Apply(s, a), b);
    RunsConcat(s, [a], [b]);
    assert [a] + [b] == [a, b];
  }

  /** One more step. */
  lemma {:induction false} ReachableStep(s: State, a: Action)
    requires Reachable(s) && Enabled(s, a)
    ensures Reachable(Apply(s, a))
  {
    var paths: seq<string>, token: P.Token, actions: seq<Action> :|
      !token.Minted? && Runs(Init(paths, token), actions) && s == After(Init(paths, token), actions);
    RunOne(s, a);
    RunsConcat(Init(paths, token), actions, [a]);
  }

  lemma {:induction false} ReachableInit(paths: seq<string>, token: P.Token)
    requires !token.Minted?
    ensures Reachable(Init(paths, token))
  {
    assert Runs(Init(paths, token), []) && After(Init(paths, token), []) == Init(paths, token);
  }

  lemma {:induction false} ReachableInv(s: State)
    requires Reachable(s)
    ensures P.Inv(Abs(s)) && Lifecycle(s)
  {
    AdminIsProtocol(s);
    P.ReachableInv(Abs(s));
    var paths: seq<string>, token: P.Token, actions: seq<Action> :|
      !token.Minted? && Runs(Init(paths, token), actions) && s == After(Init(paths, token), actions);
    LifecycleRun(Init(paths, token), actions);
  }

  // ----------------------------------------------------------- a cut refresh

  function SentCall(path: string): Call { Call(path, Sent, None, 1, 0, 0, false) }

  /** Two calls sent, and the same after the first one's refresh was served but its connection broke. */
  function TwoSent(a: string, b: string, token: P.Token): State {
    State([], None, token, 0, 0, false, [SentCall(a), SentCall(b)])
  }

  function AfterCut(a: string, b: string, token: P.Token, reply: Reply): State {
    State([P.Flight(P.Closed(false), 0, true, true, P.Cut)], None, token, 0, 1, false,
          [Call(a, Waiting(reply), Some(0), 1, 1, 0, true), SentCall(b)])
  }

  /** A 401 that the client tries to recover from. */
  predicate Refreshable(reply: Reply) {
    Unauthorized(reply) && PeekCode(reply.body) !in TERMINAL_AUTH_CODES
  }

  lemma {:induction false} SendBoth(a: string, b: string, token: P.Token)
    ensures Runs(Init([a, b], token), [Start(0), Start(1)])
    ensures After(Init([a, b], token), [Start(0), Start(1)]) == TwoSent(a, b, token)
  {
    var s0 := Init([a, b], token);
    RunTwo(s0, Start(0), Start(1));
    assert Apply(Apply(s0, Start(0)), Start(1)).calls == TwoSent(a, b, token).calls;
  }

  lemma {:induction false} RefreshCut(a: string, b: string, token: P.Token, reply: Reply)
    requires !IsAuthPath(a) && token != P.NoToken && Refreshable(reply)
    ensures var actions := [FirstAnswer(0, reply), Peek(0)] + [Serve(0), RefreshAnswer(0, P.Cut, Failed)];
            Runs(TwoSent(a, b, token), actions) && After(TwoSent(a, b, token), actions) == AfterCut(a, b, token, reply)
  {
    var s := TwoSent(a, b, token);
    RunTwo(s, FirstAnswer(0, reply), Peek(0));
    var middle := Apply(Apply(s, FirstAnswer(0, reply)), Peek(0));
    assert middle.flights == [P.Flight(P.Out, 0, false, false, P.Flying)];
    RunTwo(middle, Serve(0), RefreshAnswer(0, P.Cut, Failed));
    RunsConcat(s, [FirstAnswer(0, reply), Peek(0)], [Serve(0), RefreshAnswer(0, P.Cut, Failed)]);
  }

  lemma {:induction false} RefreshAgain(a: string, b: string, token: P.Token, reply: Reply)
    requires !IsAuthPath(b) && token != P.NoToken && Refreshable(reply)
    ensures var actions := [FirstAnswer(1, reply), Peek(1)] + [Serve(1)];
            Runs(AfterCut(a, b, token, reply), actions) && After(AfterCut(a, b, token, reply), actions).reused
  {
    var s := AfterCut(a, b, token, reply);
    RunTwo(s, FirstAnswer(1, reply), Peek(1));
    var middle := Apply(Apply(s, FirstAnswer(1, reply)), Peek(1));
    assert middle.flights[1] == P.Flight(P.Out, 0, false, false, P.Flying);
    RunOne(middle, Serve(1));
    RunsConcat(s, [FirstAnswer(1, reply), Peek(1)], [Serve(1)]);
  }

  /** Any two calls outside `/auth/` can do it while a token is held: the first one's refresh breaks off after the
      server has rotated, the second one's refresh shows the old token, and the server sees a reuse. */
  lemma {:induction false} CutCausesReuse(a: string, b: string, token: P.Token, reply: Reply)
    requires !IsAuthPath(a) && !IsAuthPath(b) && token != P.NoToken && Refreshable(reply)
    ensures var actions := [Start(0), Start(1)]
                           + ([FirstAnswer(0, reply), Peek(0)] + [Serve(0), RefreshAnswer(0, P.Cut, Failed)])
                           + ([FirstAnswer(1, reply), Peek(1)] + [Serve(1)]);
            Runs(Init([a, b], token), actions) && After(Init([a, b], token), actions).reused
  {
    var s0 := Init([a, b], token);
    var cut := [FirstAnswer(0, reply), Peek(0)] + [Serve(0), RefreshAnswer(0, P.Cut, Failed)];
    SendBoth(a, b, token);
    RefreshCut(a, b, token, reply);
    RefreshAgain(a, b, token, reply);
    RunsConcat(s0, [Start(0), Start(1)], cut);
    RunsConcat(s0, [Start(0), Start(1)] + cut, [FirstAnswer(1, reply), Peek(1)] + [Serve(1)]);
  }

  function OneWaiting(path: string, token: P.Token, first: Reply): State {
    State([P.Flight(P.Out, 0, true, true, P.Flying)], Some(0), token, 0, 1, false,
          [Call(path, Waiting(first), Some(0), 1, 1, 0, true)])
  }

  lemma {:induction false} OneExpires(path: string, token: P.Token, first: Reply)
    requires !("/auth/" <= path) && token != P.NoToken && Unauthorized(first) && !EndsSession(first)
    ensures var actions := [Start(0), FirstAnswer(0, first)] + [Peek(0), Serve(0)];
            Runs(Init([path], token), actions) && After(Init([path], token), actions) == OneWaiting(path, token, first)
  {
    var s0 := Init([path], token);
    var s1 := Apply(s0, Start(0));
    assert s1.calls == [Call(path, Sent, None, 1, 0, 0, false)];
    var s2 := Apply(s1, FirstAnswer(0, first));
    assert s2.calls == [Call(path, Peeking(first), None, 1, 0, 0, true)];
    var s3 := Apply(s2, Peek(0));
    assert s3.flights == [P.Flight(P.Out, 0, false, false, P.Flying)];
    RunTwo(s0, Start(0), FirstAnswer(0, first));
    RunTwo(s2, Peek(0), Serve(0));
    RunsConcat(s0, [Start(0), FirstAnswer(0, first)], [Peek(0), Serve(0)]);
  }

  /** A lost access token is renewed: any call outside `/auth/` whose first answer is a 401 that does not end the
      session, while a token is held, and whose refresh is served and answered with data, is sent again with the new
      token; it ends from any other answer than a 401 with the handler not fired and the token kept. */
  lemma {:induction false} LostIsRenewed(path: string, token: P.Token, body: Body, status: int,
                                         error: Option<string>, last: Reply)
    requires !("/auth/" <= path) && token != P.NoToken && !EndsSession(Http(401, body))
    requires 200 <= status <= 299 && status != 204 && !(last.Http? && last.status == 401)
    ensures var first := Http(401, body);
            var refresh := RefreshAnswer(0, P.Answered, Http(status, Envelope(true, true, error)));
            var actions := [Start(0), FirstAnswer(0, first)] + [Peek(0), Serve(0)] + [refresh, Resume(0)];
            && Runs(Init([path], token), actions)
            && After(Init([path], token), actions).calls ==
               [Call(path, Resent(P.Minted(0)), Some(0), 2, 1, 0, true)]
            && Runs(Init([path], token), actions + [LastAnswer(0, last)])
            && (var s := After(Init([path], token), actions + [LastAnswer(0, last)]);
                s.calls == [Call(path, Done(last), Some(0), 2, 1, 0, true)]
                && s.accessToken == P.Minted(0) && !s.reused)
  {
    var first, reply := Http(401, body), Http(status, Envelope(true, true, error));
    var refresh := RefreshAnswer(0, P.Answered, reply);
    var head := [Start(0), FirstAnswer(0, first)] + [Peek(0), Serve(0)];
    var s0, s := Init([path], token), OneWaiting(path, token, first);
    OneExpires(path, token, first);
    RefreshSucceedsExact(reply);
    RunTwo(s, refresh, Resume(0));
    var resent := Apply(Apply(s, refresh), Resume(0));
    RunsConcat(s0, head, [refresh, Resume(0)]);
    RunOne(resent, LastAnswer(0, last));
    RunsConcat(s0, head + [refresh, Resume(0)], [LastAnswer(0, last)]);
  }

  /** Exactly which runs of the admin client show the server a used token. */
  lemma {:induction false} ReuseExact(s: State)
    requires Reachable(s)
    ensures s.reused <==> exists f, g :: P.ServedUnanswered(s.flights, f, g)
  {
    AdminIsProtocol(s);
    P.ReuseRunExact(Abs(s));
  }

  // ------------------------------------------------- what each step comes to

  /** The call has been sent once and has asked for nothing; it has ended without the handler, unless the answer was
      a 401 outside `/auth/` that found a token in memory. */
  ghost predicate AnsweredFirst(s: State, i: nat, reply: Reply)
    requires i < |s.calls|
  {
    var c := s.calls[i];
    && c.sends == 1 && c.asks == 0 && c.alarms == 0 && c.joined.None?
    && c.stage == (if reply.Http? && reply.status == 401 && !("/auth/" <= c.path) && s.accessToken != P.NoToken
                   then Peeking(reply) else Done(reply))
  }

  lemma {:induction false} FirstAnswerKeeps(s: State, i: nat, reply: Reply)
    requires Reachable(s) && Enabled(s, FirstAnswer(i, reply))
    ensures Reachable(Apply(s, FirstAnswer(i, reply))) && AnsweredFirst(Apply(s, FirstAnswer(i, reply)), i, reply)
  {
    ReachableStep(s, FirstAnswer(i, reply));
    ReachableInv(s);
    assert AlarmsOk(s.calls[i]);
    assert P.CallOk(s.flights, Abs(s).calls[i]);
  }

  /** The call has joined the one unfinished flight; or it has ended from its terminal 401 without ever asking, no
      token is left in memory, and the handler has fired once. */
  ghost predicate Peeked(s: State, i: nat)
    requires i < |s.calls|
  {
    var c := s.calls[i];
    if c.stage.Waiting? then
      c.joined == s.refreshInFlight && c.joined.Some? && P.OnlyUnfinished(s.flights, c.joined.value)
    else
      && c.stage.Done? && Unauthorized(c.stage.last)
      && c.asks == 0 && c.alarms == 1 && s.accessToken == P.NoToken
  }

  /** The codes that end a session at once; any other 401, with or without a code, is worth a refresh. */
  predicate EndsSession(reply: Reply) {
    && reply.Http? && reply.body.Envelope?
    && (|| reply.body.error == Some("AUTH_TOKEN_INVALID")
        || reply.body.error == Some("AUTH_SESSION_REVOKED")
        || reply.body.error == Some("AUTH_REFRESH_REUSED"))
  }

  /** After a peek the call has ended if its 401 ends the session, and waits for a refresh if it does not. */
  lemma {:induction false} PeekExact(s: State, i: nat)
    requires Enabled(s, Peek(i))
    ensures var first, stage := s.calls[i].stage.first, Apply(s, Peek(i)).calls[i].stage;
            && (EndsSession(first) <==> stage == Done(first)) && (!EndsSession(first) <==> stage == Waiting(first))
  {
  }

  lemma {:induction false} PeekKeeps(s: State, i: nat)
    requires Reachable(s) && Enabled(s, Peek(i))
    ensures Reachable(Apply(s, Peek(i))) && Peeked(Apply(s, Peek(i)), i)
  {
    var s' := Apply(s, Peek(i));
    ReachableStep(s, Peek(i));
    ReachableInv(s);
    ReachableInv(s');
    assert AlarmsOk(s.calls[i]) && AlarmsOk(s'.calls[i]);
    assert P.CallOk(s.flights, Abs(s).calls[i]);
  }

  /** No flight is unfinished, every waiting call can resume, and a token the flight brought is the newest. */
  ghost predicate Released(s: State, s': State, f: nat, reply: Reply) {
    && s'.refreshInFlight.None? && P.AllClosed(s'.flights)
    && (forall i :: 0 <= i < |s'.calls| && s'.calls[i].stage.Waiting? ==> Enabled(s', Resume(i)))
    && (if RefreshSucceeds(reply) then P.NewestInstalled(s'.flights, s'.accessToken, f)
        else s'.accessToken == s.accessToken)
  }

  lemma {:induction false} RefreshAnswerKeeps(s: State, f: nat, landing: P.Landing, reply: Reply)
    requires Reachable(s) && Enabled(s, RefreshAnswer(f, landing, reply))
    ensures Reachable(Apply(s, RefreshAnswer(f, landing, reply)))
    ensures Released(s, Apply(s, RefreshAnswer(f, landing, reply)), f, reply)
  {
    var s' := Apply(s, RefreshAnswer(f, landing, reply));
    ReachableStep(s, RefreshAnswer(f, landing, reply));
    ReachableInv(s');
    forall i | 0 <= i < |s'.calls| && s'.calls[i].stage.Waiting?
      ensures Enabled(s', Resume(i))
    {
      assert P.CallOk(s'.flights, Abs(s').calls[i]);
    }
  }

  /** The call is on its second and last send with the token in memory, which no older flight brought; or its flight
      has failed, it has been sent once and ended from its first 401, no token is left, and the handler has fired
      once. */
  ghost predicate Resumed(s: State, i: nat)
    requires i < |s.calls|
  {
    var c := s.calls[i];
    && c.joined.Some?
    && (if c.stage.Resent? then
          && P.Succeeded(s.flights, c.joined.value) && c.sends == 2 && c.stage.token == s.accessToken
          && (s.accessToken.Minted? ==> c.joined.value <= s.accessToken.flight)
        else
          && P.Failed(s.flights, c.joined.value) && c.sends == 1
          && c.stage.Done? && Unauthorized(c.stage.last) && c.alarms == 1 && s.accessToken == P.NoToken)
  }

  lemma {:induction false} ResumeKeeps(s: State, i: nat)
    requires Reachable(s) && Enabled(s, Resume(i))
    ensures Reachable(Apply(s, Resume(i))) && Resumed(Apply(s, Resume(i)), i)
  {
    var s' := Apply(s, Resume(i));
    ReachableStep(s, Resume(i));
    ReachableInv(s);
    ReachableInv(s');
    assert AlarmsOk(s.calls[i]) && AlarmsOk(s'.calls[i]);
    assert P.CallOk(s'.flights, Abs(s').calls[i]);
  }

  /** The call has ended after two sends and one successful refresh; exactly on another 401 the handler has fired,
      once, and no token is left. */
  ghost predicate AnsweredLast(s: State, s': State, i: nat, reply: Reply)
    requires i < |s'.calls|
  {
    var c := s'.calls[i];
    && c.stage == Done(reply) && c.sends == 2 && c.joined.Some? && P.Succeeded(s'.flights, c.joined.value)
    && c.alarms == (if Unauthorized(reply) then 1 else 0)
    && s'.accessToken == (if Unauthorized(reply) then P.NoToken else s.accessToken)
  }

  lemma {:induction false} LastAnswerKeeps(s: State, i: nat, reply: Reply)
    requires Reachable(s) && Enabled(s, LastAnswer(i, reply))
    ensures Reachable(Apply(s, LastAnswer(i, reply))) && AnsweredLast(s, Apply(s, LastAnswer(i, reply)), i, reply)
  {
    ReachableStep(s, LastAnswer(i, reply));
    ReachableInv(s);
    assert AlarmsOk(s.calls[i]);
    assert P.CallOk(s.flights, Abs(s).calls[i]);
  }

  // ------------------------------------------------------------ the code itself

  /** The module's variables with its suspended calls and their environment (the browser's cookie and the server).
      Each method is the code that runs between two awaits. */
  class ApiClient {
    var accessToken: P.Token
    var refreshInFlight: Option<nat>
    var calls: seq<Call>
    var flights: seq<P.Flight>
    var cookie: nat
    ghost var live: nat
    ghost var reused: bool

    ghost function World(): State
      reads this
    {
      State(flights, refreshInFlight, accessToken, cookie, live, reused, calls)
    }

    /** Some run of the client has led here, so all that is proved of reachable states holds. */
    ghost predicate Valid()
      reads this
    {
      Reachable(World())
    }

    constructor (paths: seq<string>, token: P.Token)
      requires !token.Minted?
      ensures Valid() && World() == Init(paths, token)
    {
      ReachableInit(paths, token);
      accessToken, refreshInFlight, flights := token, None, [];
      calls := Init(paths, token).calls;
      cookie, live, reused := 0, 0, false;
    }

    method SetAccessToken(token: P.Token)
      modifies this`accessToken
      ensures World() == old(World()).(accessToken := token)
      ensures old(Valid()) && !token.Minted? ==> Valid()
    {
      ghost var s := World();
      accessToken := token;
      if !token.Minted? && Reachable(s) {
        ReachableStep(s, Action.SetAccessToken(token));
      }
    }

    method SendOnce(i: nat)
      requires Valid() && Enabled(World(), Start(i))
      modifies this`calls
      ensures Valid() && World() == Apply(old(World()), Start(i))
    {
      ReachableStep(World(), Start(i));
      calls := calls[i := calls[i].(stage := Sent, sends := calls[i].sends + 1)];
    }

    method OnFirstAnswer(i: nat, reply: Reply)
      requires Valid() && Enabled(World(), FirstAnswer(i, reply))
      modifies this`calls
      ensures Valid() && World() == Apply(old(World()), FirstAnswer(i, reply))
      ensures AnsweredFirst(World(), i, reply)
    {
      FirstAnswerKeeps(World(), i, reply);
      var c := calls[i];
      if Unauthorized(reply) && !IsAuthPath(c.path) && accessToken != P.NoToken {
        calls := calls[i := c.(stage := Peeking(reply), held := true)];
      } else {
        calls := calls[i := c.(stage := Done(reply))];
      }
    }

    /** `refreshInFlight ??= …`: join the flight there is, or set one out with the cookie. Either way it is the one
        unfinished flight. */
    method RefreshSession() returns (f: nat)
      requires Valid()
      modifies this`refreshInFlight, this`flights
      ensures refreshInFlight == Some(f) && P.OnlyUnfinished(flights, f)
      ensures old(refreshInFlight).Some? ==> f == old(refreshInFlight).value && flights == old(flights)
      ensures old(refreshInFlight).None? ==>
                f == |old(flights)| && flights == old(flights) + [P.Flight(P.Out, cookie, false, false, P.Flying)]
    {
      ReachableInv(World());
      if refreshInFlight.None? {
        refreshInFlight := Some(|flights|);
        flights := flights + [P.Flight(P.Out, cookie, false, false, P.Flying)];
      }
      f := refreshInFlight.value;
    }

    /** `setAccessToken(null); onUnauthorized?.()`, and the call ends from `last`. */
    method DropSession(i: nat, last: Reply)
      requires i < |calls|
      modifies this`calls, this`accessToken
      ensures World() == SignOut(old(World()), i, last)
    {
      SetAccessToken(P.NoToken);
      calls := calls[i := calls[i].(stage := Done(last), alarms := calls[i].alarms + 1)];
    }

    /** The code of the 401 is read: end a dead session, or await the refresh. */
    method OnPeek(i: nat)
      requires Valid() && Enabled(World(), Peek(i))
      modifies this`calls, this`accessToken, this`refreshInFlight, this`flights
      ensures Valid() && World() == Apply(old(World()), Peek(i))
      ensures Peeked(World(), i)
      ensures EndsSession(old(calls[i].stage.first)) <==> calls[i].stage == Done(old(calls[i].stage.first))
      ensures !EndsSession(old(calls[i].stage.first)) <==> calls[i].stage == Waiting(old(calls[i].stage.first))
    {
      PeekKeeps(World(), i);
      PeekExact(World(), i);
      var c := calls[i];
      if c.stage.first.Http? && PeekCode(c.stage.first.body) in TERMINAL_AUTH_CODES {
        DropSession(i, c.stage.first);
      } else {
        var f := RefreshSession();
        calls := calls[i := c.(stage := Waiting(c.stage.first), asks := c.asks + 1, joined := Some(f))];
      }
    }

    /** The refresh settles: its token is installed if there is one, and the shared promise is cleared. */
    method OnRefreshAnswer(f: nat, landing: P.Landing, reply: Reply)
      requires Valid() && Enabled(World(), RefreshAnswer(f, landing, reply))
      modifies this`flights, this`accessToken, this`cookie, this`refreshInFlight
      ensures Valid() && World() == Apply(old(World()), RefreshAnswer(f, landing, reply))
      ensures Released(old(World()), World(), f, reply)
    {
      RefreshAnswerKeeps(World(), f, landing, reply);
      var flight := flights[f];
      if RefreshSucceeds(reply) {
        SetAccessToken(P.Minted(f));
      }
      refreshInFlight := None;
      flights := flights[f := flight.(phase := P.Closed(RefreshSucceeds(reply)), landing := landing)];
      cookie := if landing.Answered? && flight.rotated then flight.presented + 1 else cookie;
    }

    method OnResume(i: nat)
      requires Valid() && Enabled(World(), Resume(i))
      modifies this`calls, this`accessToken
      ensures Valid() && World() == Apply(old(World()), Resume(i))
      ensures Resumed(World(), i)
    {
      ResumeKeeps(World(), i);
      var c := calls[i];
      if flights[c.joined.value].phase.ok {
        calls := calls[i := c.(stage := Resent(accessToken), sends := c.sends + 1)];
      } else {
        DropSession(i, c.stage.first);
      }
    }

    method OnLastAnswer(i: nat, reply: Reply)
      requires Valid() && Enabled(World(), LastAnswer(i, reply))
      modifies this`calls, this`accessToken
      ensures Valid() && World() == Apply(old(World()), LastAnswer(i, reply))
      ensures AnsweredLast(old(World()), World(), i, reply)
    {
      LastAnswerKeeps(World(), i, reply);
      if Unauthorized(reply) {
        DropSession(i, reply);
      } else {
        calls := calls[i := calls[i].(stage := Done(reply))];
      }
    }
  }
}
