/** The reader app's client: `doRequest`, `openStream` and `refreshSession`, cut at
    their awaits, as a refinement of the refresh protocol. */
module ReaderClient {
  import opened Wrappers
  import P = RefreshProtocol

  // ------------------------------------------------------------- one response

  /** The body of a response: not JSON (or JSON null), a success envelope, a failure envelope with its `error` (a
      missing code is the empty one) or without, or other JSON. */
  datatype Body = NotJson | Success | Failure(code: string) | BareFailure | OtherJson

  /** What `fetch` comes to. */
  datatype Reply = TimedOut | CallerAborted | Unreachable | Http(status: int, body: Body)

  /** `doRequest` reads a JSON envelope; `openStream` hands an OK response over as a stream. */
  datatype Kind = Json | Stream

  /** How a call ends. A `Malformed` end is the error thrown for a response that is not an envelope; a `Crash` is
      the TypeError of reading a property of the missing `error`. */
  datatype Result =
    | Resolved(hasData: bool)
    | ApiError(status: int, code: string)
    | Malformed(status: int)
    | Crash(status: int)
    | Aborted

  /** What the code does with a response: end the call, firing the unauthorized handler or not, or refresh first. */
  datatype Decision = End(result: Result, alarm: bool) | Refresh(code: string)

  const TOKEN_EXPIRED := "AUTH_TOKEN_EXPIRED"
  const UNEXPECTED := "API_UNEXPECTED_ERROR"
  const REFRESH_PATH := "/auth/refresh"

  predicate IsAuthPath(path: string) { "/auth/" <= path }

  predicate IsOk(status: int) { 200 <= status <= 299 }

  /** The code of the error payload; None when there is no payload to read it from. */
  function ErrorCode(body: Body): Option<string> {
    match body
    case Failure(code) => Some(code)
    case BareFailure => None
    case _ => Some(UNEXPECTED)
  }

  /** The branches after the error payload is known, the same in both functions. Without one, the code is read only on
      the first 401 outside `/auth/`; elsewhere the crash comes with the error thrown at the end. */
  function DecideError(path: string, isRetry: bool, status: int, payload: Option<string>): Decision {
    var recoverable := status == 401 && !isRetry && !IsAuthPath(path);
    if recoverable && payload.None? then End(Crash(status), false)
    else if recoverable && payload.value == TOKEN_EXPIRED then Refresh(TOKEN_EXPIRED)
    else
      End(if payload.Some? then ApiError(status, payload.value) else Crash(status),
          status == 401 && !IsAuthPath(path))
  }

  function Decide(kind: Kind, path: string, isRetry: bool, reply: Reply): Decision {
    match reply
    case CallerAborted => End(Aborted, false)
    case TimedOut => End(if kind.Json? then ApiError(408, "API_TIMEOUT") else ApiError(0, "API_NETWORK_ERROR"), false)
    case Unreachable => End(ApiError(0, "API_NETWORK_ERROR"), false)
    case Http(status, body) =>
      if kind.Stream? then
        if IsOk(status) then End(Resolved(true), false) else DecideError(path, isRetry, status, ErrorCode(body))
      else if status == 204 then End(Resolved(false), false)
      else if body.NotJson? then End(Malformed(status), false)
      else if IsOk(status) && body.Success? then End(Resolved(true), false)
      else DecideError(path, isRetry, status, ErrorCode(body))
  }

  /** Which responses give the caller its data: those of a status from 200 to 299 that are handed over as a stream, have
      no content (204), or are a success envelope. The handler never fires for them. */
  lemma {:induction false} ResolvesExact(kind: Kind, path: string, isRetry: bool, reply: Reply)
    ensures var d := Decide(kind, path, isRetry, reply);
            && (d.End? && d.result.Resolved? <==>
                reply.Http? && 200 <= reply.status <= 299
                && (kind == Stream || reply.status == 204 || reply.body == Success))
            && (d.End? && d.result.Resolved? ==>
                !d.alarm && d.result.hasData == !(kind == Json && reply.status == 204))
  {
  }

  /** Which responses ask for a refresh: the 401 of a first send outside `/auth/` whose code is `AUTH_TOKEN_EXPIRED`. */
  lemma {:induction false} AsksExact(kind: Kind, path: string, isRetry: bool, reply: Reply)
    ensures Decide(kind, path, isRetry, reply).Refresh? <==>
              !isRetry && !("/auth/" <= path) && reply.Http? && reply.status == 401
              && reply.body == Failure("AUTH_TOKEN_EXPIRED")
  {
  }

  /** Which fire the unauthorized handler: a 401 outside `/auth/` with a JSON body (for a stream, any body) that neither
      asks for a refresh nor crashes on the first send. */
  lemma {:induction false} AlarmsExact(kind: Kind, path: string, isRetry: bool, reply: Reply)
    ensures var d := Decide(kind, path, isRetry, reply);
            d.End? && d.alarm <==>
              && reply.Http? && reply.status == 401 && !("/auth/" <= path) && !(kind == Json && reply.body == NotJson)
              && (isRetry || (reply.body != BareFailure && reply.body != Failure("AUTH_TOKEN_EXPIRED")))
  {
  }

  /** What the caller catches otherwise, by what `fetch` came to. */
  lemma {:induction false} FailuresExact(kind: Kind, path: string, isRetry: bool, reply: Reply)
    requires Decide(kind, path, isRetry, reply).End? && !Decide(kind, path, isRetry, reply).result.Resolved?
    ensures Decide(kind, path, isRetry, reply).result ==
            match reply
            case CallerAborted => Aborted
            case TimedOut => (match kind case Json => ApiError(408, "API_TIMEOUT")
                                         case Stream => ApiError(0, "API_NETWORK_ERROR"))
            case Unreachable => ApiError(0, "API_NETWORK_ERROR")
            case Http(status, Failure(code)) => ApiError(status, code)
            case Http(status, BareFailure) => Crash(status)
            case Http(status, NotJson) =>
              (if kind == Json then Malformed(status) else ApiError(status, "API_UNEXPECTED_ERROR"))
            case Http(status, _) => ApiError(status, "API_UNEXPECTED_ERROR")
  {
  }

  /** The refresh request is itself a `doRequest`, but one that can never ask for a refresh or fire the handler:
      a refresh never waits on itself. */
  lemma RefreshNeverAsks(isRetry: bool, reply: Reply)
    ensures Decide(Json, REFRESH_PATH, isRetry, reply).End? && !Decide(Json, REFRESH_PATH, isRetry, reply).alarm
  {
    assert REFRESH_PATH[..6] == "/auth/";
  }

  /** Whether `.then((data) => setAccessToken(data.accessToken))` is reached with a token. */
  predicate RefreshSucceeds(reply: Reply) {
    var d := Decide(Json, REFRESH_PATH, false, reply);
    d.End? && d.result == Resolved(true)
  }

  /** A refresh succeeds exactly on a success envelope of a status from 200 to 299 other than 204. */
  lemma {:induction false} RefreshSucceedsExact(reply: Reply)
    ensures RefreshSucceeds(reply) <==>
              reply.Http? && 200 <= reply.status <= 299 && reply.status != 204 && reply.body == Success
  {
    ResolvesExact(Json, REFRESH_PATH, false, reply);
  }

  // ---------------------------------------------------------------- all calls

  /** Where a call stands; `Waiting` keeps the error code it will throw if the refresh fails. */
  datatype Stage = Ready | Sent | Waiting(code: string) | Resent(token: P.Token) | Done(result: Result)

  /** `alarms` counts the times this call fired the unauthorized handler. */
  datatype Call = Call(kind: Kind, path: string, stage: Stage, joined: Option<nat>, sends: nat, asks: nat, alarms: nat)

  datatype State = State(flights: seq<P.Flight>, refreshPromise: Option<nat>, accessToken: P.Token,
                         cookie: nat, live: nat, reused: bool, calls: seq<Call>)

  /** What happens next: a call is sent or answered, the server works, the refresh answer arrives, `.finally` runs,
      a waiting call resumes, or code outside sets the token. */
  datatype Action =
    | Start(i: nat)
    | Answer(i: nat, reply: Reply)
    | Serve(f: nat)
    | RefreshAnswer(f: nat, landing: P.Landing, reply: Reply)
    | Finally(f: nat)
    | Resume(i: nat)
    | SetAccessToken(token: P.Token)

  predicate Enabled(s: State, a: Action) {
    match a
    case Start(i) => i < |s.calls| && s.calls[i].stage == Ready
    case Answer(i, reply) => i < |s.calls| && (s.calls[i].stage == Sent || s.calls[i].stage.Resent?)
    case Serve(f) => f < |s.flights| && !s.flights[f].served && s.flights[f].landing != P.Dropped
    case RefreshAnswer(f, landing, reply) =>
      && f < |s.flights| && s.flights[f].phase.Out?
      && (match landing
          case Flying => false
          // an answer of the server: a token only if it rotated
          case Answered => reply.Http? && s.flights[f].served && (RefreshSucceeds(reply) ==> s.flights[f].rotated)
          // an error short of the server, or the server never answering
          case Dropped => !s.flights[f].served && !RefreshSucceeds(reply)
          case Cut => !RefreshSucceeds(reply))
    case Finally(f) => f < |s.flights| && s.flights[f].phase.Landed?
    case Resume(i) =>
      i < |s.calls| && s.calls[i].stage.Waiting? && s.calls[i].joined.Some?
      && s.calls[i].joined.value < |s.flights| && s.flights[s.calls[i].joined.value].phase.Closed?
    case SetAccessToken(token) => !token.Minted?
  }

  /** Ending a call, with or without the handler. */
  function EndCall(c: Call, result: Result, alarm: bool): Call {
    c.(stage := Done(result), alarms := if alarm then c.alarms + 1 else c.alarms)
  }

  function Apply(s: State, a: Action): State
    requires Enabled(s, a)
  {
    match a
    case Start(i) => s.(calls := s.calls[i := s.calls[i].(stage := Sent, sends := s.calls[i].sends + 1)])
    case Answer(i, reply) =>
      var c := s.calls[i];
      (match Decide(c.kind, c.path, c.stage.Resent?, reply)
       case End(result, alarm) => s.(calls := s.calls[i := EndCall(c, result, alarm)])
       case Refresh(code) =>
         // `refreshPromise ??= request('/auth/refresh')`, then await it
         var waiting := c.(stage := Waiting(code), asks := c.asks + 1);
         if s.refreshPromise.Some? then s.(calls := s.calls[i := waiting.(joined := s.refreshPromise)])
         else
           var f := |s.flights|;
           s.(flights := s.flights + [P.Flight(P.Out, s.cookie, false, false, P.Flying)], refreshPromise := Some(f),
              calls := s.calls[i := waiting.(joined := Some(f))]))
    case Serve(f) =>
      var flight := s.flights[f];
      var rotates := flight.presented == s.live && !s.reused;
      s.(flights := s.flights[f := flight.(served := true, rotated := rotates)],
         live := if rotates then s.live + 1 else s.live, reused := s.reused || flight.presented != s.live)
    case RefreshAnswer(f, landing, reply) =>
      var flight, ok := s.flights[f], RefreshSucceeds(reply);
      s.(flights := s.flights[f := flight.(phase := P.Landed(ok), landing := landing)],
         cookie := if landing.Answered? && flight.rotated then flight.presented + 1 else s.cookie,
         accessToken := if ok then P.Minted(f) else s.accessToken)
    case Finally(f) =>
      s.(flights := s.flights[f := s.flights[f].(phase := P.Closed(s.flights[f].phase.ok))], refreshPromise := None)
    case Resume(i) =>
      var c := s.calls[i];
      if s.flights[c.joined.value].phase.ok
      then s.(calls := s.calls[i := c.(stage := Resent(s.accessToken), sends := c.sends + 1)])
      else s.(calls := s.calls[i := EndCall(c, ApiError(401, c.stage.code), true)])
    case SetAccessToken(token) => s.(accessToken := token)
  }

  /** The calls an app is about to make. */
  datatype Request = Request(kind: Kind, path: string)

  function Init(requests: seq<Request>, token: P.Token): State {
    State([], None, token, 0, 0, false,
          seq(|requests|,
              i requires 0 <= i < |requests| => Call(requests[i].kind, requests[i].path, Ready, None, 0, 0, 0)))
  }

  ghost predicate Runs(s: State, actions: seq<Action>)
    decreases |actions|
  {
    actions == [] || (Enabled(s, actions[0]) && Runs(Apply(s, actions[0]), actions[1..]))
  }

  ghost function After(s: State, actions: seq<Action>): State
    requires Runs(s, actions)
    decreases |actions|
  {
    if actions == [] then s else After(Apply(s, actions[0]), actions[1..])
  }

  // ---------------------------------------------------------------- refinement

  function AbsStage(stage: Stage): P.Stage {
    match stage
    case Ready => P.Ready
    case Sent => P.Sent
    case Waiting(_) => P.Waiting
    case Resent(token) => P.Resent(token)
    case Done(_) => P.Done
  }

  function AbsCall(c: Call): P.Call { P.Call(AbsStage(c.stage), c.joined, c.sends, c.asks) }

  function AbsCalls(calls: seq<Call>): (r: seq<P.Call>)
    ensures |r| == |calls| && forall i :: 0 <= i < |calls| ==> r[i] == AbsCall(calls[i])
  {
    seq(|calls|, i requires 0 <= i < |calls| => AbsCall(calls[i]))
  }

  function Abs(s: State): P.State {
    P.State(s.flights, s.refreshPromise, s.accessToken, s.cookie, s.live, s.reused, AbsCalls(s.calls))
  }

  lemma AbsUpdate(calls: seq<Call>, i: nat, c: Call)
    requires i < |calls|
    ensures AbsCalls(calls[i := c]) == AbsCalls(calls)[i := AbsCall(c)]
  {
  }

  /** The protocol step that a step of the client is. */
  function AbsAction(s: State, a: Action): P.Action
    requires Enabled(s, a)
  {
    match a
    case Start(i) => P.Send(i)
    case Answer(i, reply) =>
      var c := s.calls[i];
      if c.stage.Resent? then P.Settle(i)
      else if Decide(c.kind, c.path, false, reply).Refresh? then P.Ask(i)
      else P.Finish(i)
    case Serve(f) => P.Serve(f)
    case RefreshAnswer(f, landing, reply) => P.Land(f, landing, RefreshSucceeds(reply))
    case Finally(f) => P.Close(f)
    case Resume(i) => P.Resume(i)
    case SetAccessToken(token) => P.SetToken(token)
  }

  lemma {:induction false} CallMoveRefines(s: State, a: Action)
    requires Enabled(s, a) && (a.Start? || a.Resume?)
    ensures P.Enabled(Abs(s), AbsAction(s, a))
    ensures P.Apply(Abs(s), AbsAction(s, a)) == Abs(Apply(s, a))
  {
    AbsUpdate(s.calls, a.i, Apply(s, a).calls[a.i]);
  }

  lemma {:induction false} AnswerRefines(s: State, i: nat, reply: Reply)
    requires Enabled(s, Answer(i, reply))
    ensures P.Enabled(Abs(s), AbsAction(s, Answer(i, reply)))
    ensures P.Apply(Abs(s), AbsAction(s, Answer(i, reply))) == Abs(Apply(s, Answer(i, reply)))
  {
    var c := s.calls[i];
    AbsUpdate(s.calls, i, Apply(s, Answer(i, reply)).calls[i]);
    assert c.stage.Resent? ==> Decide(c.kind, c.path, true, reply).End?;
  }

  /** Every step of the reader client is a step of the protocol. */
  lemma {:induction false} StepRefines(s: State, a: Action)
    requires Enabled(s, a)
    ensures P.Enabled(Abs(s), AbsAction(s, a))
    ensures P.Apply(Abs(s), AbsAction(s, a)) == Abs(Apply(s, a))
  {
    match a {
      case Start(i) => CallMoveRefines(s, a);
      case Answer(i, reply) => AnswerRefines(s, i, reply);
      case Resume(i) => CallMoveRefines(s, a);
      case _ =>
    }
  }

  lemma {:induction false} InitRefines(requests: seq<Request>, token: P.Token)
    ensures Abs(Init(requests, token)) == P.Init(|requests|, token)
  {
    assert AbsCalls(Init(requests, token).calls) == P.Init(|requests|, token).calls;
  }

  ghost function AbsActions(s: State, actions: seq<Action>): seq<P.Action>
    requires Runs(s, actions)
    decreases |actions|
  {
    if actions == [] then [] else [AbsAction(s, actions[0])] + AbsActions(Apply(s, actions[0]), actions[1..])
  }

  /** Every run of the reader client is a run of the protocol. */
  lemma {:induction false} RunRefines(s: State, actions: seq<Action>)
    requires Runs(s, actions)
    ensures P.Runs(Abs(s), AbsActions(s, actions)) && P.After(Abs(s), AbsActions(s, actions)) == Abs(After(s, actions))
    decreases |actions|
  {
    if actions != [] {
      StepRefines(s, actions[0]);
      RunRefines(Apply(s, actions[0]), actions[1..]);
      P.RunsCons(Abs(s), AbsAction(s, actions[0]), AbsActions(Apply(s, actions[0]), actions[1..]));
    }
  }

  ghost predicate Reachable(s: State) {
    exists requests: seq<Request>, token: P.Token, actions: seq<Action> ::
      !token.Minted? && Runs(Init(requests, token), actions) && s == After(Init(requests, token), actions)
  }

  /** So the reader client has every property of the protocol: one flight at a time, joiners that fare alike, no
      replay before its token, no used refresh token while no refresh is cut. */
  lemma {:induction false} ReaderIsProtocol(s: State)
    requires Reachable(s)
    ensures P.Reachable(Abs(s))
  {
    var requests: seq<Request>, token: P.Token, actions: seq<Action> :|
      !token.Minted? && Runs(Init(requests, token), actions) && s == After(Init(requests, token), actions);
    InitRefines(requests, token);
    RunRefines(Init(requests, token), actions);
  }

  // ----------------------------------------------------------------- lifecycle

  /** The ends that must have fired the handler: outside `/auth/`, a 401 error, or a crash on the 401 of a replay. */
  predicate EndsUnauthorized(c: Call) {
    && c.stage.Done? && !IsAuthPath(c.path)
    && (match c.stage.result
        case ApiError(status, _) => status == 401
        case Crash(status) => status == 401 && c.sends == 2
        case _ => false)
  }

  predicate AlarmsOk(c: Call) {
    && c.alarms == (if EndsUnauthorized(c) then 1 else 0)
    && (IsAuthPath(c.path) ==> c.asks == 0 && c.joined.None? && !c.stage.Waiting?)
    && (c.stage.Waiting? ==> c.stage.code == TOKEN_EXPIRED)
    && (match c.stage
        case Ready => c.sends == 0
        case Sent => c.sends == 1
        case Waiting(_) => c.sends == 1
        case Resent(_) => c.sends == 2
        case Done(_) => true)
  }

  ghost predicate Lifecycle(s: State) {
    forall i :: 0 <= i < |s.calls| ==> AlarmsOk(s.calls[i])
  }

  lemma {:induction false} LifecycleStep(s: State, a: Action)
    requires Lifecycle(s) && Enabled(s, a)
    ensures Lifecycle(Apply(s, a))
  {
    var s' := Apply(s, a);
    forall i | 0 <= i < |s'.calls|
      ensures AlarmsOk(s'.calls[i])
    {
      assert AlarmsOk(s.calls[i]);
    }
  }

  lemma {:induction false} LifecycleRun(s: State, actions: seq<Action>)
    requires Lifecycle(s) && Runs(s, actions)
    ensures Lifecycle(After(s, actions))
    decreases |actions|
  {
    if actions != [] {
      LifecycleStep(s, actions[0]);
      LifecycleRun(Apply(s, actions[0]), actions[1..]);
    }
  }

  /** Every call is sent at most twice and refreshes at most once, an `/auth/` call never refreshes, and the
      unauthorized handler fires exactly once for the calls that end as a 401 error outside `/auth/`, or crash on the
      401 of their replay, and never for others. */
  lemma {:induction false} CallLifecycle(s: State, i: nat)
    requires Reachable(s) && i < |s.calls|
    ensures var c := s.calls[i];
            && c.sends <= 2 && c.asks <= 1 && (IsAuthPath(c.path) ==> c.asks == 0 && c.sends <= 1)
            && c.alarms == (if EndsUnauthorized(c) then 1 else 0)
  {
    ReaderIsProtocol(s);
    P.SendsBounded(Abs(s), i);
    var requests: seq<Request>, token: P.Token, actions: seq<Action> :|
      !token.Minted? && Runs(Init(requests, token), actions) && s == After(Init(requests, token), actions);
    LifecycleRun(Init(requests, token), actions);
    assert AlarmsOk(s.calls[i]);
  }

  /** The 401s outside `/auth/` that end a call without the handler, although the session may be gone: those that are
      not JSON, in `doRequest`, and a first one that is a failure envelope without an error, in both functions. */
  lemma {:induction false} SilentUnauthorizedExact(kind: Kind, path: string, isRetry: bool, body: Body)
    requires !IsAuthPath(path)
    ensures var d := Decide(kind, path, isRetry, Http(401, body));
            d.End? && !d.alarm <==> (kind.Json? && body.NotJson?) || (!isRetry && body.BareFailure?)
  {
  }

  /** Such an envelope on a replay fires the handler first and crashes then. */
  lemma {:induction false} ReplayCrashes(kind: Kind, path: string)
    requires !IsAuthPath(path)
    ensures Decide(kind, path, false, Http(401, BareFailure)) == End(Crash(401), false)
    ensures Decide(kind, path, true, Http(401, BareFailure)) == End(Crash(401), true)
  {
  }

  /** A 401 whose body is not JSON ends a `doRequest` without the handler; `openStream` fires it. */
  lemma {:induction false} MalformedUnauthorizedIsSilent(path: string, isRetry: bool)
    ensures Decide(Json, path, isRetry, Http(401, NotJson)) == End(Malformed(401), false)
    ensures !IsAuthPath(path) ==>
              Decide(Stream, path, isRetry, Http(401, NotJson)) == End(ApiError(401, UNEXPECTED), true)
  {
  }

  /** Every reader call ends: at most seven steps a call, and a step can be taken while one is unfinished. */
  lemma {:induction false} EveryCallEnds(requests: seq<Request>, token: P.Token, actions: seq<Action>)
    requires !token.Minted? && Runs(Init(requests, token), actions)
    ensures ProtocolSteps(actions) <= 7 * |requests|
    ensures var s := After(Init(requests, token), actions);
            (exists i :: 0 <= i < |s.calls| && !s.calls[i].stage.Done?) ==>
                exists a :: Enabled(s, a) && !a.SetAccessToken?
  {
    var s := After(Init(requests, token), actions);
    InitRefines(requests, token);
    RunRefines(Init(requests, token), actions);
    StepsKeep(Init(requests, token), actions);
    P.EveryCallEnds(|requests|, token, AbsActions(Init(requests, token), actions));
    if i :| 0 <= i < |s.calls| && !s.calls[i].stage.Done? {
      P.InvInit(|requests|, token);
      P.InvRun(P.Init(|requests|, token), AbsActions(Init(requests, token), actions));
      SomeStep(s, i);
    }
  }

  lemma {:induction false} SomeStep(s: State, i: nat)
    requires P.Inv(Abs(s)) && i < |s.calls| && !s.calls[i].stage.Done?
    ensures exists a :: Enabled(s, a) && !a.SetAccessToken?
  {
    assert P.CallOk(s.flights, Abs(s).calls[i]);
    match s.calls[i].stage {
      case Ready => assert Enabled(s, Start(i));
      case Sent => assert Enabled(s, Answer(i, Unreachable));
      case Resent(_) => assert Enabled(s, Answer(i, Unreachable));
      case Waiting(_) =>
        var f := s.calls[i].joined.value;
        match s.flights[f].phase {
          case Out => assert Enabled(s, RefreshAnswer(f, P.Cut, TimedOut));
          case Landed(_) => assert Enabled(s, Finally(f));
          case Closed(_) => assert Enabled(s, Resume(i));
        }
    }
  }

  function ProtocolSteps(actions: seq<Action>): nat {
    if actions == [] then 0 else (if actions[0].SetAccessToken? then 0 else 1) + ProtocolSteps(actions[1..])
  }

  lemma {:induction false} StepsKeep(s: State, actions: seq<Action>)
    requires Runs(s, actions)
    ensures P.ProtocolSteps(AbsActions(s, actions)) == ProtocolSteps(actions)
    decreases |actions|
  {
    if actions != [] {
      StepsKeep(Apply(s, actions[0]), actions[1..]);
      assert AbsActions(s, actions)[1..] == AbsActions(Apply(s, actions[0]), actions[1..]);
    }
  }

  // ------------------------------------------------------- runs put together

  lemma {:induction false} RunsConcat(s: State, a: seq<Action>, b: seq<Action>)
    requires Runs(s, a) && Runs(After(s, a), b)
    ensures Runs(s, a + b) && After(s, a + b) == After(After(s, a), b)
    decreases |a|
  {
    if a == [] {
      assert a + b == b;
    } else {
      assert (a + b)[1..] == a[1..] + b;
      RunsConcat(Apply(s, a[0]), a[1..], b);
    }
  }

  lemma {:induction false} RunOne(s: State, a: Action)
    requires Enabled(s, a)
    ensures Runs(s, [a]) && After(s, [a]) == Apply(s, a)
  {
    assert [a][1..] == [];
  }

  lemma {:induction false} RunTwo(s: State, a: Action, b: Action)
    requires Enabled(s, a) && Enabled(Apply(s, a), b)
    ensures Runs(s, [a, b]) && After(s, [a, b]) == Apply(Apply(s, a), b)
  {
    RunOne(s, a);
    RunOne(Apply(s, a), b);
    RunsConcat(s, [a], [b]);
    assert [a] + [b] == [a, b];
  }

  /** One more step. */
  lemma {:induction false} ReachableStep(s: State, a: Action)
    requires Reachable(s) && Enabled(s, a)
    ensures Reachable(Apply(s, a))
  {
    var requests: seq<Request>, token: P.Token, actions: seq<Action> :|
      !token.Minted? && Runs(Init(requests, token), actions) && s == After(Init(requests, token), actions);
    RunOne(s, a);
    RunsConcat(Init(requests, token), actions, [a]);
  }

  lemma {:induction false} ReachableInit(requests: seq<Request>, token: P.Token)
    requires !token.Minted?
    ensures Reachable(Init(requests, token))
  {
    assert Runs(Init(requests, token), []) && After(Init(requests, token), []) == Init(requests, token);
  }

  lemma {:induction false} ReachableInv(s: State)
    requires Reachable(s)
    ensures P.Inv(Abs(s)) && Lifecycle(s)
  {
    ReaderIsProtocol(s);
    P.ReachableInv(Abs(s));
    var requests: seq<Request>, token: P.Token, actions: seq<Action> :|
      !token.Minted? && Runs(Init(requests, token), actions) && s == After(Init(requests, token), actions);
    LifecycleRun(Init(requests, token), actions);
  }

  // ----------------------------------------------------------- a cut refresh

  const EXPIRED: Reply := Http(401, Failure(TOKEN_EXPIRED))

  function SentCall(r: Request): Call { Call(r.kind, r.path, Sent, None, 1, 0, 0) }

  /** Two calls sent, and the same after the first one's refresh was served but timed out. */
  function TwoSent(a: Request, b: Request, token: P.Token): State {
    State([], None, token, 0, 0, false, [SentCall(a), SentCall(b)])
  }

  function AfterCut(a: Request, b: Request, token: P.Token): State {
    State([P.Flight(P.Closed(false), 0, true, true, P.Cut)], None, token, 0, 1, false,
          [Call(a.kind, a.path, Waiting(TOKEN_EXPIRED), Some(0), 1, 1, 0), SentCall(b)])
  }

  lemma ExpiredAsks(kind: Kind, path: string)
    requires !IsAuthPath(path)
    ensures Decide(kind, path, false, EXPIRED) == Refresh(TOKEN_EXPIRED)
  {
  }

  lemma {:induction false} SendBoth(a: Request, b: Request, token: P.Token)
    ensures Runs(Init([a, b], token), [Start(0), Start(1)])
    ensures After(Init([a, b], token), [Start(0), Start(1)]) == TwoSent(a, b, token)
  {
    var s0 := Init([a, b], token);
    RunTwo(s0, Start(0), Start(1));
    assert Apply(Apply(s0, Start(0)), Start(1)).calls == TwoSent(a, b, token).calls;
  }

  lemma {:induction false} RefreshCut(a: Request, b: Request, token: P.Token)
    requires !IsAuthPath(a.path)
    ensures var actions := [Answer(0, EXPIRED), Serve(0)] + [RefreshAnswer(0, P.Cut, TimedOut), Finally(0)];
            Runs(TwoSent(a, b, token), actions) && After(TwoSent(a, b, token), actions) == AfterCut(a, b, token)
  {
    var s := TwoSent(a, b, token);
    ExpiredAsks(a.kind, a.path);
    RunTwo(s, Answer(0, EXPIRED), Serve(0));
    var middle := Apply(Apply(s, Answer(0, EXPIRED)), Serve(0));
    assert middle.flights == [P.Flight(P.Out, 0, true, true, P.Flying)];
    RunTwo(middle, RefreshAnswer(0, P.Cut, TimedOut), Finally(0));
    RunsConcat(s, [Answer(0, EXPIRED), Serve(0)], [RefreshAnswer(0, P.Cut, TimedOut), Finally(0)]);
  }

  lemma {:induction false} RefreshAgain(a: Request, b: Request, token: P.Token)
    requires !IsAuthPath(b.path)
    ensures Runs(AfterCut(a, b, token), [Answer(1, EXPIRED), Serve(1)])
    ensures After(AfterCut(a, b, token), [Answer(1, EXPIRED), Serve(1)]).reused
  {
    ExpiredAsks(b.kind, b.path);
    RunTwo(AfterCut(a, b, token), Answer(1, EXPIRED), Serve(1));
  }

  /** Any two calls outside `/auth/` can do it: the first one's refresh times out after the server has rotated, the
      second one's refresh shows the old token, and the server sees a reuse. */
  lemma {:induction false} CutCausesReuse(a: Request, b: Request, token: P.Token)
    requires !IsAuthPath(a.path) && !IsAuthPath(b.path)
    ensures var actions := [Start(0), Start(1)]
                           + ([Answer(0, EXPIRED), Serve(0)] + [RefreshAnswer(0, P.Cut, TimedOut), Finally(0)])
                           + [Answer(1, EXPIRED), Serve(1)];
            Runs(Init([a, b], token), actions) && After(Init([a, b], token), actions).reused
  {
    var s0 := Init([a, b], token);
    var cut := [Answer(0, EXPIRED), Serve(0)] + [RefreshAnswer(0, P.Cut, TimedOut), Finally(0)];
    SendBoth(a, b, token);
    RefreshCut(a, b, token);
    RefreshAgain(a, b, token);
    RunsConcat(s0, [Start(0), Start(1)], cut);
    RunsConcat(s0, [Start(0), Start(1)] + cut, [Answer(1, EXPIRED), Serve(1)]);
  }

  /** A call sent and waiting on its refresh, and the same when the refresh was answered and closed. */
  function OneWaiting(r: Request, token: P.Token): State {
    State([P.Flight(P.Out, 0, true, true, P.Flying)], Some(0), token, 0, 1, false,
          [Call(r.kind, r.path, Waiting("AUTH_TOKEN_EXPIRED"), Some(0), 1, 1, 0)])
  }

  function OneRefreshed(r: Request): State {
    State([P.Flight(P.Closed(true), 0, true, true, P.Answered)], None, P.Minted(0), 1, 1, false,
          [Call(r.kind, r.path, Waiting("AUTH_TOKEN_EXPIRED"), Some(0), 1, 1, 0)])
  }

  lemma {:induction false} OneExpires(r: Request, token: P.Token)
    requires !("/auth/" <= r.path)
    ensures var actions := [Start(0), Answer(0, Http(401, Failure("AUTH_TOKEN_EXPIRED")))] + [Serve(0)];
            Runs(Init([r], token), actions) && After(Init([r], token), actions) == OneWaiting(r, token)
  {
    var s0, expired := Init([r], token), Http(401, Failure("AUTH_TOKEN_EXPIRED"));
    var s1 := Apply(s0, Start(0));
    assert s1.calls == [Call(r.kind, r.path, Sent, None, 1, 0, 0)];
    AsksExact(r.kind, r.path, false, expired);
    var s2 := Apply(s1, Answer(0, expired));
    assert s2.flights == [P.Flight(P.Out, 0, false, false, P.Flying)];
    RunTwo(s0, Start(0), Answer(0, expired));
    RunOne(s2, Serve(0));
    RunsConcat(s0, [Start(0), Answer(0, expired)], [Serve(0)]);
  }

  lemma {:induction false} OneRefreshes(r: Request, token: P.Token, status: int)
    requires 200 <= status <= 299 && status != 204
    ensures var actions := [RefreshAnswer(0, P.Answered, Http(status, Success)), Finally(0)];
            Runs(OneWaiting(r, token), actions) && After(OneWaiting(r, token), actions) == OneRefreshed(r)
  {
    RefreshSucceedsExact(Http(status, Success));
    RunTwo(OneWaiting(r, token), RefreshAnswer(0, P.Answered, Http(status, Success)), Finally(0));
  }

  /** An expired access token is renewed: any call outside `/auth/` that gets the expired 401, and whose refresh is
      served and answered with success, is sent again with the new token; answered with success it ends with its data,
      and the handler has not fired. */
  lemma {:induction false} ExpiredIsRenewed(r: Request, token: P.Token, refresh: int, status: int)
    requires !("/auth/" <= r.path) && 200 <= refresh <= 299 && refresh != 204 && 200 <= status <= 299 && status != 204
    ensures var actions := [Start(0), Answer(0, Http(401, Failure("AUTH_TOKEN_EXPIRED")))] + [Serve(0)]
                           + [RefreshAnswer(0, P.Answered, Http(refresh, Success)), Finally(0)];
            && Runs(Init([r], token), actions + [Resume(0)])
            && After(Init([r], token), actions + [Resume(0)]).calls ==
               [Call(r.kind, r.path, Resent(P.Minted(0)), Some(0), 2, 1, 0)]
            && Runs(Init([r], token), actions + [Resume(0), Answer(0, Http(status, Success))])
            && (var s := After(Init([r], token), actions + [Resume(0), Answer(0, Http(status, Success))]);
                s.calls == [Call(r.kind, r.path, Done(Resolved(true)), Some(0), 2, 1, 0)]
                && s.accessToken == P.Minted(0) && !s.reused)
  {
    var first := [Start(0), Answer(0, Http(401, Failure("AUTH_TOKEN_EXPIRED")))] + [Serve(0)];
    var second := [RefreshAnswer(0, P.Answered, Http(refresh, Success)), Finally(0)];
    var s := OneRefreshed(r);
    OneExpires(r, token);
    OneRefreshes(r, token, refresh);
    RunsConcat(Init([r], token), first, second);
    RunOne(s, Resume(0));
    RunsConcat(Init([r], token), first + second, [Resume(0)]);
    ResolvesExact(r.kind, r.path, true, Http(status, Success));
    RunTwo(s, Resume(0), Answer(0, Http(status, Success)));
    RunsConcat(Init([r], token), first + second, [Resume(0), Answer(0, Http(status, Success))]);
  }

  /** Exactly which runs of the reader client show the server a used token. */
  lemma {:induction false} ReuseExact(s: State)
    requires Reachable(s)
    ensures s.reused <==> exists f, g :: P.ServedUnanswered(s.flights, f, g)
  {
    ReaderIsProtocol(s);
    P.ReuseRunExact(Abs(s));
  }

  // ------------------------------------------------- what each step comes to

  /** A call that awaits a refresh has joined the one unfinished flight; otherwise it has ended, with the handler
      fired exactly if it ended as a 401 error outside `/auth/` or crashed on the 401 of its replay, and no flight has
      been touched. */
  ghost predicate Answered(s: State, s': State, i: nat)
    requires i < |s'.calls|
  {
    var c := s'.calls[i];
    if c.stage.Waiting? then
      c.joined == s'.refreshPromise && c.joined.Some? && P.OnlyUnfinished(s'.flights, c.joined.value)
    else
      c.stage.Done? && s'.flights == s.flights && c.alarms == (if EndsUnauthorized(c) then 1 else 0)
  }

  lemma {:induction false} AnswerKeeps(s: State, i: nat, reply: Reply)
    requires Reachable(s) && Enabled(s, Answer(i, reply))
    ensures Reachable(Apply(s, Answer(i, reply))) && Answered(s, Apply(s, Answer(i, reply)), i)
  {
    var s' := Apply(s, Answer(i, reply));
    ReachableStep(s, Answer(i, reply));
    ReachableInv(s');
    assert AlarmsOk(s'.calls[i]);
  }

  /** The flight is still the shared one, none of its joiners has moved on, and a token it brought is the newest. */
  ghost predicate Landed(s: State, s': State, f: nat, reply: Reply) {
    && s'.refreshPromise == Some(f) && P.OnlyUnfinished(s'.flights, f)
    && (forall i :: 0 <= i < |s'.calls| && s'.calls[i].joined == Some(f) ==> s'.calls[i].stage.Waiting?)
    && (if RefreshSucceeds(reply) then P.NewestInstalled(s'.flights, s'.accessToken, f)
        else s'.accessToken == s.accessToken)
  }

  lemma {:induction false} LandedNewest(s: State, f: nat)
    requires P.Inv(Abs(s)) && f < |s.flights| && s.flights[f].phase.Landed?
    ensures s.refreshPromise == Some(f) && P.OnlyUnfinished(s.flights, f)
    ensures s.accessToken == P.Minted(f) ==> P.NewestInstalled(s.flights, s.accessToken, f)
  {
    assert P.FlightsOk(s.flights, s.refreshPromise);
    assert f == |s.flights| - 1;
  }

  lemma {:induction false} RefreshAnswerKeeps(s: State, f: nat, landing: P.Landing, reply: Reply)
    requires Reachable(s) && Enabled(s, RefreshAnswer(f, landing, reply))
    ensures Reachable(Apply(s, RefreshAnswer(f, landing, reply)))
    ensures Landed(s, Apply(s, RefreshAnswer(f, landing, reply)), f, reply)
  {
    var s' := Apply(s, RefreshAnswer(f, landing, reply));
    ReachableStep(s, RefreshAnswer(f, landing, reply));
    ReachableInv(s');
    LandedNewest(s', f);
    forall i | 0 <= i < |s'.calls| && s'.calls[i].joined == Some(f)
      ensures s'.calls[i].stage.Waiting?
    {
      assert P.CallOk(s'.flights, Abs(s').calls[i]);
    }
  }

  /** No flight is unfinished, and every waiting call can resume. */
  ghost predicate Released(s: State) {
    && s.refreshPromise.None? && P.AllClosed(s.flights)
    && forall i :: 0 <= i < |s.calls| && s.calls[i].stage.Waiting? ==> Enabled(s, Resume(i))
  }

  lemma {:induction false} FinallyKeeps(s: State, f: nat)
    requires Reachable(s) && Enabled(s, Finally(f))
    ensures Reachable(Apply(s, Finally(f))) && Released(Apply(s, Finally(f)))
  {
    var s' := Apply(s, Finally(f));
    ReachableStep(s, Finally(f));
    ReachableInv(s');
    forall i | 0 <= i < |s'.calls| && s'.calls[i].stage.Waiting?
      ensures Enabled(s', Resume(i))
    {
      assert P.CallOk(s'.flights, Abs(s').calls[i]);
    }
  }

  /** The call is on its second and last send with the token in memory, which no older flight brought; or its flight
      has failed, it has been sent once, and it has ended as the 401 it began with, the handler fired once. */
  ghost predicate Resumed(s: State, i: nat)
    requires i < |s.calls|
  {
    var c := s.calls[i];
    && c.joined.Some?
    && (if c.stage.Resent? then
          && P.Succeeded(s.flights, c.joined.value) && c.sends == 2 && c.stage.token == s.accessToken
          && (s.accessToken.Minted? ==> c.joined.value <= s.accessToken.flight)
        else
          && P.Failed(s.flights, c.joined.value) && c.sends == 1
          && c.stage == Done(ApiError(401, TOKEN_EXPIRED)) && c.alarms == 1)
  }

  lemma {:induction false} ResumeKeeps(s: State, i: nat)
    requires Reachable(s) && Enabled(s, Resume(i))
    ensures Reachable(Apply(s, Resume(i))) && Resumed(Apply(s, Resume(i)), i)
  {
    var s' := Apply(s, Resume(i));
    ReachableStep(s, Resume(i));
    ReachableInv(s);
    ReachableInv(s');
    assert AlarmsOk(s.calls[i]) && AlarmsOk(s'.calls[i]);
    assert P.CallOk(s'.flights, Abs(s').calls[i]);
  }

  // ------------------------------------------------------------ the code itself

  /** The module's variables with its suspended calls and their environment (the browser's cookie and the server).
      Each method is the code that runs between two awaits. */
  class ApiClient {
    var accessToken: P.Token
    var refreshPromise: Option<nat>
    var calls: seq<Call>
    var flights: seq<P.Flight>
    var cookie: nat
    ghost var live: nat
    ghost var reused: bool

    ghost function World(): State
      reads this
    {
      State(flights, refreshPromise, accessToken, cookie, live, reused, calls)
    }

    /** Some run of the client has led here, so all that is proved of reachable states holds. */
    ghost predicate Valid()
      reads this
    {
      Reachable(World())
    }

    constructor (requests: seq<Request>, token: P.Token)
      requires !token.Minted?
      ensures Valid() && World() == Init(requests, token)
    {
      ReachableInit(requests, token);
      accessToken, refreshPromise, flights := token, None, [];
      calls := Init(requests, token).calls;
      cookie, live, reused := 0, 0, false;
    }

    method SetAccessToken(token: P.Token)
      modifies this`accessToken
      ensures World() == old(World()).(accessToken := token)
      ensures old(Valid()) && !token.Minted? ==> Valid()
    {
      ghost var s := World();
      accessToken := token;
      if !token.Minted? && Reachable(s) {
        ReachableStep(s, Action.SetAccessToken(token));
      }
    }

    method Send(i: nat)
      requires Valid() && Enabled(World(), Start(i))
      modifies this`calls
      ensures Valid() && World() == Apply(old(World()), Start(i))
    {
      ReachableStep(World(), Start(i));
      calls := calls[i := calls[i].(stage := Sent, sends := calls[i].sends + 1)];
    }

    /** `refreshPromise ??= request('/auth/refresh')`: join the flight there is, or set one out with the cookie.
        Either way it is the one unfinished flight. */
    method RefreshSession() returns (f: nat)
      requires Valid()
      modifies this`refreshPromise, this`flights
      ensures refreshPromise == Some(f) && P.OnlyUnfinished(flights, f)
      ensures old(refreshPromise).Some? ==> f == old(refreshPromise).value && flights == old(flights)
      ensures old(refreshPromise).None? ==>
                f == |old(flights)| && flights == old(flights) + [P.Flight(P.Out, cookie, false, false, P.Flying)]
    {
      ReachableInv(World());
      if refreshPromise.None? {
        refreshPromise := Some(|flights|);
        flights := flights + [P.Flight(P.Out, cookie, false, false, P.Flying)];
      }
      f := refreshPromise.value;
    }

    /** `doRequest` and `openStream` from a response to their end, or to awaiting the refresh. */
    method OnAnswer(i: nat, reply: Reply)
      requires Valid() && Enabled(World(), Answer(i, reply))
      modifies this`calls, this`refreshPromise, this`flights
      ensures Valid() && World() == Apply(old(World()), Answer(i, reply))
      ensures Answered(old(World()), World(), i)
    {
      AnswerKeeps(World(), i, reply);
      var c := calls[i];
      match Decide(c.kind, c.path, c.stage.Resent?, reply) {
        case End(result, alarm) => calls := calls[i := EndCall(c, result, alarm)];
        case Refresh(code) =>
          var f := RefreshSession();
          calls := calls[i := c.(stage := Waiting(code), asks := c.asks + 1, joined := Some(f))];
      }
    }

    /** The refresh request settles; on success `.then` installs its token. */
    method OnRefreshAnswer(f: nat, landing: P.Landing, reply: Reply)
      requires Valid() && Enabled(World(), RefreshAnswer(f, landing, reply))
      modifies this`flights, this`accessToken, this`cookie
      ensures Valid() && World() == Apply(old(World()), RefreshAnswer(f, landing, reply))
      ensures Landed(old(World()), World(), f, reply)
    {
      RefreshAnswerKeeps(World(), f, landing, reply);
      var flight := flights[f];
      if RefreshSucceeds(reply) {
        SetAccessToken(P.Minted(f));
      }
      flights := flights[f := flight.(phase := P.Landed(RefreshSucceeds(reply)), landing := landing)];
      cookie := if landing.Answered? && flight.rotated then flight.presented + 1 else cookie;
    }

    method OnFinally(f: nat)
      requires Valid() && Enabled(World(), Finally(f))
      modifies this`flights, this`refreshPromise
      ensures Valid() && World() == Apply(old(World()), Finally(f))
      ensures Released(World())
    {
      FinallyKeeps(World(), f);
      flights := flights[f := flights[f].(phase := P.Closed(flights[f].phase.ok))];
      refreshPromise := None;
    }

    /** After the awaited refresh: replay with the token in memory now, or fire the handler and throw. */
    method OnResume(i: nat)
      requires Valid() && Enabled(World(), Resume(i))
      modifies this`calls
      ensures Valid() && World() == Apply(old(World()), Resume(i))
      ensures Resumed(World(), i)
    {
      ResumeKeeps(World(), i);
      var c := calls[i];
      if flights[c.joined.value].phase.ok {
        calls := calls[i := c.(stage := Resent(accessToken), sends := c.sends + 1)];
      } else {
        calls := calls[i := EndCall(c, ApiError(401, c.stage.code), true)];
      }
    }
  }
}
