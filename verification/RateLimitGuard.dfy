/** The sliding-window guard over Redis sorted sets, run beside a log that forgets nothing. */
module RateLimitGuard {
  import opened Wrappers
  import opened RateLimitLog
  import JsText

  // --------------------------------------------------------- Redis sorted sets

  /** A sorted set as its scores in order (members are distinct), and when the key expires. */
  datatype SortedSet = SortedSet(scores: seq<int>, expiresAt: int)

  /** ZREMRANGEBYSCORE key low high. */
  function RemoveByScore(scores: seq<int>, low: int, high: int): seq<int> {
    if scores == [] then []
    else
      var last := scores[|scores| - 1];
      RemoveByScore(scores[..|scores| - 1], low, high) + (if low <= last <= high then [] else [last])
  }

  /** ZADD of a new member. */
  function Add(scores: seq<int>, score: int): (r: seq<int>)
    ensures r != []
  {
    if scores == [] || scores[|scores| - 1] <= score then scores + [score]
    else Add(scores[..|scores| - 1], score) + [scores[|scores| - 1]]
  }

  /** A set from which only charges older than a window have gone, by eviction or by the expiry of the whole key. */
  ghost predicate Faithful(sets: map<string, SortedSet>, key: string, times: seq<int>, window: int, clock: int) {
    if key in sets then
      var s := sets[key];
      && 0 < |s.scores| <= |times|
      && s.scores == times[|times| - |s.scores|..]
      && (forall i :: 0 <= i < |times| - |s.scores| ==> times[i] <= clock - window)
      && s.expiresAt == times[|times| - 1] + window
    else forall i :: 0 <= i < |times| ==> times[i] <= clock - window
  }

  lemma {:induction false} RemoveIsRecent(scores: seq<int>, high: int)
    requires forall i :: 0 <= i < |scores| ==> scores[i] >= 0
    ensures RemoveByScore(scores, 0, high) == Recent(scores, high)
  {
    if scores != [] {
      RemoveIsRecent(scores[..|scores| - 1], high);
    }
  }

  function LiveScores(sets: map<string, SortedSet>, key: string, now: int): seq<int> {
    if key in sets && now <= sets[key].expiresAt then sets[key].scores else []
  }

  lemma {:induction false} LiveKeepsWindow(sets: map<string, SortedSet>, key: string, times: seq<int>, window: int,
                                           clock: int, now: int)
    requires Faithful(sets, key, times, window, clock) && Sorted(times) && clock <= now && window > 0
    ensures Recent(LiveScores(sets, key, now), now - window) == Recent(times, now - window)
  {
    var low, live := now - window, LiveScores(sets, key, now);
    if live == [] {
      RecentNone(times, low);
    } else {
      var n := |times| - |live|;
      assert times == times[..n] + live;
      RecentNone(times[..n], low);
      RecentConcat(times[..n], live, low);
      assert [] + Recent(live, low) == Recent(live, low);
    }
  }

  /** What survives eviction is what the log has in the window, wherever the set was cut or expired before. */
  lemma {:induction false} EvictedIsWindow(sets: map<string, SortedSet>, key: string, times: seq<int>, window: int,
                                           clock: int, now: int)
    requires Faithful(sets, key, times, window, clock) && Sorted(times) && clock <= now && window > 0
    requires forall i :: 0 <= i < |times| ==> 0 <= times[i] <= clock
    ensures Add(RemoveByScore(LiveScores(sets, key, now), 0, now - window), now) == Recent(times, now - window) + [now]
  {
    var live := LiveScores(sets, key, now);
    LiveKeepsWindow(sets, key, times, window, clock, now);
    LiveNonNegative(sets, key, times, window, clock, now);
    RemoveIsRecent(live, now - window);
    AddLast(times, now - window, now);
  }

  lemma LiveNonNegative(sets: map<string, SortedSet>, key: string, times: seq<int>, window: int, clock: int, now: int)
    requires Faithful(sets, key, times, window, clock) && forall i :: 0 <= i < |times| ==> 0 <= times[i]
    ensures forall i :: 0 <= i < |LiveScores(sets, key, now)| ==> LiveScores(sets, key, now)[i] >= 0
  {
  }

  lemma {:induction false} AddLast(times: seq<int>, low: int, now: int)
    requires Sorted(times) && forall i :: 0 <= i < |times| ==> times[i] <= now
    ensures Add(Recent(times, low), now) == Recent(times, low) + [now]
  {
    RecentTail(times, low);
  }

  lemma {:induction false} FaithfulAdded(sets: map<string, SortedSet>, key: string, times: seq<int>, window: int,
                                         now: int)
    requires Sorted(times) && key in sets && sets[key] == SortedSet(Recent(times, now - window) + [now], now + window)
    ensures Faithful(sets, key, times + [now], window, now)
  {
    RecentTail(times, now - window);
    var m := |times| - |Recent(times, now - window)|;
    assert (times + [now])[m..] == Recent(times, now - window) + [now];
  }

  /** Time passing, and other keys changing, leave a key faithful. */
  lemma FaithfulLater(sets: map<string, SortedSet>, sets': map<string, SortedSet>, key: string, times: seq<int>,
                      window: int, clock: int, now: int)
    requires Faithful(sets, key, times, window, clock) && clock <= now
    requires (key in sets') == (key in sets) && (key in sets ==> sets'[key] == sets[key])
    ensures Faithful(sets', key, times, window, now)
  {
  }

  ghost predicate KeyFaithful(name: string, scope: string, sets: map<string, SortedSet>, log: seq<Charge>,
                              tiers: map<string, Tier>, clock: int) {
    name in tiers ==> Faithful(sets, KeyOf(name, scope), Times(log, KeyOf(name, scope)), WindowMs(tiers[name]), clock)
  }

  /** Every window of the table, at every scope, is kept faithfully. */
  ghost predicate AllFaithful(sets: map<string, SortedSet>, log: seq<Charge>, tiers: map<string, Tier>, clock: int) {
    forall name, scope :: KeyFaithful(name, scope, sets, log, tiers, clock)
  }

  ghost predicate ClockOk(log: seq<Charge>, clock: int) {
    clock >= 0 && (log != [] ==> log[|log| - 1].at <= clock)
  }

  lemma {:induction false} ConsumeWindow(sets: map<string, SortedSet>, log: seq<Charge>, tiers: map<string, Tier>,
                                         clock: int, name: string, scope: string, now: int)
    requires LegalLog(log, tiers) && ClockOk(log, clock) && AllFaithful(sets, log, tiers, clock) && name in tiers
             && clock <= now
    ensures var key := KeyOf(name, scope);
            Add(RemoveByScore(LiveScores(sets, key, now), 0, now - WindowMs(tiers[name])), now) ==
                InWindow(log, key, tiers[name], now)
  {
    var key := KeyOf(name, scope);
    assert KeyFaithful(name, scope, sets, log, tiers, clock);
    TimesSorted(log, key);
    TimesNonNegative(log, tiers, key);
    assert WindowMs(tiers[name]) > 0;
    EvictedIsWindow(sets, key, Times(log, key), WindowMs(tiers[name]), clock, now);
  }

  lemma {:induction false} OtherKeyFaithful(name: string, scope: string, sets: map<string, SortedSet>,
                                            sets': map<string, SortedSet>,
                                            log: seq<Charge>, tiers: map<string, Tier>, clock: int, c: Charge)
    requires KeyFaithful(name, scope, sets, log, tiers, clock) && clock <= c.at && KeyOf(name, scope) != c.key
    requires forall k :: k != c.key ==> (k in sets' <==> k in sets) && (k in sets ==> sets'[k] == sets[k])
    ensures KeyFaithful(name, scope, sets', log + [c], tiers, c.at)
  {
    var key := KeyOf(name, scope);
    TimesSnoc(log, c, key);
    if name in tiers {
      FaithfulLater(sets, sets', key, Times(log, key), WindowMs(tiers[name]), clock, c.at);
    }
  }

  lemma {:induction false} ConsumeFaithful(sets: map<string, SortedSet>, log: seq<Charge>, tiers: map<string, Tier>,
                                           clock: int, c: Charge, scope: string)
    requires LegalLog(log, tiers) && AllFaithful(sets, log, tiers, clock) && clock <= c.at
    requires c.name in tiers && c.key == KeyOf(c.name, scope)
    ensures AllFaithful(sets[c.key := SortedSet(InWindow(log, c.key, tiers[c.name], c.at),
                                                c.at + WindowMs(tiers[c.name]))],
                        log + [c], tiers, c.at)
  {
    var sets' := sets[c.key := SortedSet(InWindow(log, c.key, tiers[c.name], c.at), c.at + WindowMs(tiers[c.name]))];
    forall name, scope'
      ensures KeyFaithful(name, scope', sets', log + [c], tiers, c.at)
    {
      if name in tiers {
        if KeyOf(name, scope') == c.key {
          KeyInjective(c.name, scope, name, scope');
          OwnKeyFaithful(sets', log, tiers, c);
        } else {
          OtherKeyFaithful(name, scope', sets, sets', log, tiers, clock, c);
        }
      }
    }
  }

  lemma {:induction false} OwnKeyFaithful(sets: map<string, SortedSet>, log: seq<Charge>, tiers: map<string, Tier>,
                                          c: Charge)
    requires LegalLog(log, tiers) && c.name in tiers && c.key in sets
    requires sets[c.key] == SortedSet(InWindow(log, c.key, tiers[c.name], c.at), c.at + WindowMs(tiers[c.name]))
    ensures Faithful(sets, c.key, Times(log + [c], c.key), WindowMs(tiers[c.name]), c.at)
  {
    TimesSnoc(log, c, c.key);
    TimesSorted(log, c.key);
    FaithfulAdded(sets, c.key, Times(log, c.key), WindowMs(tiers[c.name]), c.at);
  }

  lemma {:induction false} ExpireFaithful(sets: map<string, SortedSet>, log: seq<Charge>, tiers: map<string, Tier>,
                                          clock: int, key: string, now: int)
    requires LegalLog(log, tiers) && AllFaithful(sets, log, tiers, clock) && clock <= now
    ensures AllFaithful(if key in sets && sets[key].expiresAt <= now then sets - {key} else sets, log, tiers, now)
  {
    var sets' := if key in sets && sets[key].expiresAt <= now then sets - {key} else sets;
    forall name, scope
      ensures KeyFaithful(name, scope, sets', log, tiers, now)
    {
      if name in tiers {
        assert KeyFaithful(name, scope, sets, log, tiers, clock);
        var k := KeyOf(name, scope);
        TimesSorted(log, k);
        if k != key || sets' == sets {
          FaithfulLater(sets, sets', k, Times(log, k), WindowMs(tiers[name]), clock, now);
        }
      }
    }
  }

  ghost predicate StateOk(sets: map<string, SortedSet>, log: seq<Charge>, tiers: map<string, Tier>, clock: int) {
    LegalLog(log, tiers) && ClockOk(log, clock) && AllFaithful(sets, log, tiers, clock)
  }

  // ------------------------------------------------------------------ the guard

  /** A request as the guard sees it; the marker is the only part it changes. */
  class HttpRequest {
    const id: int
    const path: string
    const client: Client
    var rateLimitApplied: bool

    constructor (id: int, path: string, client: Client)
      ensures this.id == id && this.path == path && this.client == client && !rateLimitApplied
    {
      this.id, this.path, this.client, this.rateLimitApplied := id, path, client, false;
    }
  }

  /** A charge another request makes while this one is being served. */
  datatype Arrival = Arrival(request: int, name: string, client: Client, at: int)

  /** One turn of the tier loop: what other requests do first, and the time the tier is then charged. */
  datatype Turn = Turn(others: seq<Arrival>, now: int)

  /** The X-RateLimit-* headers. */
  datatype Headers = Headers(limit: int, remaining: int, reset: int)

  /** Whether the request goes on, and what was written to the response; `retryAfter` comes with a 429. */
  datatype Response = Response(admitted: bool, headers: Option<Headers>, retryAfter: Option<int>)

  predicate ProbePath(path: string) {
    path == "/health" || JsText.StartsWith(path, "/health/") || JsText.StartsWith(path, "/metrics")
  }

  const DEFAULT_TIER := "apiDefault"

  function DeclaredTiers(declared: Option<seq<string>>): (names: seq<string>)
    ensures names != []
  {
    if declared.Some? && declared.value != [] then declared.value else [DEFAULT_TIER]
  }

  /** The clock after the first `j` arrivals. */
  function ClockAfter(others: seq<Arrival>, j: nat, clock: int): int
    requires j <= |others|
  {
    if j == 0 then clock else others[j - 1].at
  }

  /** Other requests' charges in time order, none of them this request's. */
  ghost predicate ArrivalsOk(others: seq<Arrival>, clock: int, own: int, tiers: map<string, Tier>) {
    forall j :: 0 <= j < |others| ==> ArrivalOk(others, j, clock, own, tiers)
  }

  predicate ArrivalOk(others: seq<Arrival>, j: nat, clock: int, own: int, tiers: map<string, Tier>)
    requires j < |others|
  {
    others[j].request != own && others[j].name in tiers && others[j].at >= ClockAfter(others, j, clock)
  }

  function ClockBefore(turns: seq<Turn>, i: nat, clock: int): int
    requires i <= |turns|
  {
    if i == 0 then clock else turns[i - 1].now
  }

  ghost predicate TurnOk(turn: Turn, clock: int, own: int, tiers: map<string, Tier>) {
    ArrivalsOk(turn.others, clock, own, tiers) && turn.now >= ClockAfter(turn.others, |turn.others|, clock)
  }

  ghost predicate TurnsOk(turns: seq<Turn>, clock: int, own: int, tiers: map<string, Tier>) {
    forall i :: 0 <= i < |turns| ==> TurnInOrder(turns, i, clock, own, tiers)
  }

  ghost predicate TurnInOrder(turns: seq<Turn>, i: nat, clock: int, own: int, tiers: map<string, Tier>)
    requires i < |turns|
  {
    TurnOk(turns[i], ClockBefore(turns, i, clock), own, tiers)
  }

  // ------------------------------------------------- the outcome of a request

  /** `marks` are, in order, the places in the log of the request's charges against `names`, and the
      request has no other charge since `start`. */
  ghost predicate Charged(log: seq<Charge>, keys: seq<(string, string)>, request: int, start: nat, marks: seq<nat>) {
    && |marks| == |keys|
    && (forall i :: 0 <= i < |marks| ==> start <= marks[i] < |log| && ChargeOf(log[marks[i]], request, keys[i]))
    && (forall i, j :: 0 <= i < j < |marks| ==> marks[i] < marks[j])
    && (forall p :: start <= p < |log| && log[p].request == request ==> p in marks)
  }

  predicate ChargeOf(c: Charge, request: int, key: (string, string)) {
    c.request == request && c.name == key.0 && c.key == key.1
  }

  /** The tier names of a request with the keys they charge. */
  ghost function KeysOf(names: seq<string>, client: Client, tiers: map<string, Tier>,
                  lower: string -> string): (keys: seq<(string, string)>)
    requires forall i :: 0 <= i < |names| ==> names[i] in tiers
    ensures |keys| == |names|
  {
    seq(|names|,
        i requires 0 <= i < |names| => (names[i], KeyOf(names[i], ResolveScope(tiers[names[i]], client, lower))))
  }

  /** What the log says of each marked charge. */
  ghost function Results(log: seq<Charge>, tiers: map<string, Tier>, marks: seq<nat>): (results: seq<TierResult>)
    requires MarksIn(log, tiers, marks)
    ensures |results| == |marks|
  {
    seq(|marks|, i requires 0 <= i < |marks| => AssessAt(log, marks[i], tiers))
  }

  ghost predicate MarksIn(log: seq<Charge>, tiers: map<string, Tier>, marks: seq<nat>) {
    forall i :: 0 <= i < |marks| ==> marks[i] < |log| && log[marks[i]].name in tiers
  }

  /** The first of the results with the least remaining. */
  ghost predicate FirstTightest(results: seq<TierResult>, t: int) {
    && 0 <= t < |results|
    && (forall j :: 0 <= j < |results| ==> results[j].remaining >= results[t].remaining)
    && (forall j :: 0 <= j < t ==> results[j].remaining > results[t].remaining)
  }

  ghost predicate LastBreach(results: seq<TierResult>, b: int) {
    0 <= b < |results| && results[b].breached && forall j :: b < j < |results| ==> !results[j].breached
  }

  function HeadersOf(r: TierResult): Headers {
    Headers(r.limit, Max(0, r.remaining), r.resetSeconds)
  }

  /** A counted request passes exactly when none of its results is a breach; otherwise it is told the wait of
      its last breached tier. The headers are those of its tightest tier. */
  ghost predicate Answers(response: Response, results: seq<TierResult>) {
    && (response.admitted <==> forall i :: 0 <= i < |results| ==> !results[i].breached)
    && (response.admitted ==> response.retryAfter.None?)
    && (!response.admitted ==> exists b :: LastBreach(results, b) && response.retryAfter == Some(results[b].retryAfter))
    && (exists t :: FirstTightest(results, t) && response.headers == Some(HeadersOf(results[t])))
  }

  /** The variables of the tier loop after some results. */
  ghost predicate Tracks(tightest: Option<TierResult>, breach: Option<TierResult>, results: seq<TierResult>) {
    && (if results == [] then tightest.None? else exists t :: FirstTightest(results, t) && tightest == Some(results[t]))
    && (if breach.Some? then exists b :: LastBreach(results, b) && breach == Some(results[b])
        else forall j :: 0 <= j < |results| ==> !results[j].breached)
  }

  lemma TrackNext(tightest: Option<TierResult>, breach: Option<TierResult>, results: seq<TierResult>,
                  result: TierResult)
    requires Tracks(tightest, breach, results)
    ensures Tracks(if tightest.None? || result.remaining < tightest.value.remaining then Some(result) else tightest,
                   if result.breached then Some(result) else breach, results + [result])
  {
    var n, next := |results|, results + [result];
    assert next[n] == result;
    if tightest.None? || result.remaining < tightest.value.remaining {
      assert FirstTightest(next, n);
    } else {
      var t :| FirstTightest(results, t) && tightest == Some(results[t]);
      assert FirstTightest(next, t) && next[t] == results[t];
    }
    if result.breached {
      assert LastBreach(next, n);
    } else if breach.Some? {
      var b :| LastBreach(results, b) && breach == Some(results[b]);
      assert LastBreach(next, b) && next[b] == results[b];
    }
  }

  lemma {:induction false} ResultsLater(log: seq<Charge>, later: seq<Charge>, tiers: map<string, Tier>, marks: seq<nat>)
    requires MarksIn(log, tiers, marks) && log <= later
    ensures MarksIn(later, tiers, marks) && Results(later, tiers, marks) == Results(log, tiers, marks)
  {
    forall i | 0 <= i < |marks|
      ensures AssessAt(later, marks[i], tiers) == AssessAt(log, marks[i], tiers)
    {
      assert later[..marks[i]] == log[..marks[i]];
    }
  }

  /** One more charge of the request, after others' charges. */
  lemma {:induction false} ChargedNext(log: seq<Charge>, others: seq<Charge>, own: Charge, keys: seq<(string, string)>,
                                       key: (string, string), request: int, start: nat, marks: seq<nat>)
    requires Charged(log, keys, request, start, marks) && log <= others && start <= |log|
    requires forall p :: |log| <= p < |others| ==> others[p].request != request
    requires ChargeOf(own, request, key)
    ensures Charged(others + [own], keys + [key], request, start, marks + [|others|])
  {
    var log', marks' := others + [own], marks + [|others|];
    forall p | start <= p < |log'| && log'[p].request == request
      ensures p in marks'
    {
      if p < |log| {
        assert log[p] == log'[p];
        assert p in marks;
      } else {
        assert p == |others|;
        assert marks'[|marks|] == p;
      }
    }
  }

  /** `results` are what the log says of the request's charges against `keys`. */
  ghost predicate Recorded(log: seq<Charge>, tiers: map<string, Tier>, keys: seq<(string, string)>, request: int,
                           start: nat, marks: seq<nat>, results: seq<TierResult>) {
    Charged(log, keys, request, start, marks) && MarksIn(log, tiers, marks) && results == Results(log, tiers, marks)
  }

  lemma {:induction false} TurnRecorded(log: seq<Charge>, others: seq<Charge>, own: Charge, tiers: map<string, Tier>,
                                        keys: seq<(string, string)>, key: (string, string),
                                        request: int, start: nat, marks: seq<nat>, results: seq<TierResult>,
                                        result: TierResult)
    requires Recorded(log, tiers, keys, request, start, marks, results) && log <= others && start <= |log|
    requires forall p :: |log| <= p < |others| ==> others[p].request != request
    requires ChargeOf(own, request, key) && own.name in tiers
    requires result == Assess(tiers[own.name], InWindow(others, own.key, tiers[own.name], own.at), own.at)
    ensures Recorded(others + [own], tiers, keys + [key], request, start, marks + [|others|], results + [result])
  {
    ChargedNext(log, others, own, keys, key, request, start, marks);
    ResultsLater(log, others + [own], tiers, marks);
    assert (others + [own])[..|others|] == others;
    assert AssessAt(others + [own], |others|, tiers) == result;
  }

  lemma NothingCharged(log: seq<Charge>, tiers: map<string, Tier>, request: int)
    ensures Recorded(log, tiers, [], request, |log|, [], []) && Tracks(None, None, [])
  {
  }

  lemma TakeAll<T>(s: seq<T>)
    ensures s[..|s|] == s
  {
  }

  lemma TakeNext<T>(s: seq<T>, i: nat)
    requires i < |s|
    ensures s[..i + 1] == s[..i] + [s[i]]
  {
  }

  lemma AnswerFromTracks(tightest: TierResult, breach: Option<TierResult>, results: seq<TierResult>)
    requires Tracks(Some(tightest), breach, results)
    ensures var retryAfter := if breach.Some? then Some(breach.value.retryAfter) else None;
            Answers(Response(breach.None?, Some(HeadersOf(tightest)), retryAfter), results)
  {
    if breach.Some? {
      var b :| LastBreach(results, b) && breach == Some(results[b]);
      assert results[b].breached;
    }
  }

  lemma ChargedSince(before: seq<Charge>, log: seq<Charge>, request: int)
    requires before <= log && Uncharged(before, request)
    ensures Unbreached(log, request) <==> UnbreachedSince(log, request, |before|)
  {
    assert forall p :: 0 <= p < |before| ==> log[p] == before[p];
  }

  /** A counted request is let through exactly when the log holds no breached charge of it since it began. */
  lemma {:induction false} AdmittedIsUnbreached(log: seq<Charge>, tiers: map<string, Tier>, keys: seq<(string, string)>,
                                                request: int, start: nat, marks: seq<nat>, response: Response)
    requires LegalLog(log, tiers) && Charged(log, keys, request, start, marks) && MarksIn(log, tiers, marks)
    requires Answers(response, Results(log, tiers, marks))
    ensures response.admitted <==> UnbreachedSince(log, request, start)
  {
    forall i | 0 <= i < |marks|
      ensures log[marks[i]].breached == Results(log, tiers, marks)[i].breached
    {
      assert Sound(log, marks[i], tiers);
    }
    if UnbreachedSince(log, request, start) {
      forall i | 0 <= i < |marks|
        ensures !Results(log, tiers, marks)[i].breached
      {
        assert ChargeOf(log[marks[i]], request, keys[i]);
      }
    }
  }

  lemma {:induction false} TimesNonNegative(log: seq<Charge>, tiers: map<string, Tier>, key: string)
    requires LegalLog(log, tiers)
    ensures forall i :: 0 <= i < |Times(log, key)| ==> Times(log, key)[i] >= 0
  {
    TimesCharged(log, key);
    forall i | 0 <= i < |Times(log, key)|
      ensures Times(log, key)[i] >= 0
    {
      assert ChargedAt(log, key, Times(log, key)[i]);
    }
  }

  /** A charge judged by the log extends a legal log. */
  lemma {:induction false} LegalExtend(log: seq<Charge>, tiers: map<string, Tier>, c: Charge, scope: string)
    requires LegalLog(log, tiers) && c.name in tiers && c.key == KeyOf(c.name, scope) && c.at >= 0
    requires log != [] ==> log[|log| - 1].at <= c.at
    requires c.breached == Assess(tiers[c.name], InWindow(log, c.key, tiers[c.name], c.at), c.at).breached
    ensures LegalLog(log + [c], tiers)
  {
    var log' := log + [c];
    forall p | 0 <= p < |log'|
      ensures Sound(log', p, tiers)
    {
      if p < |log| {
        assert Sound(log, p, tiers);
        assert log'[..p] == log[..p];
      } else {
        assert log'[..p] == log;
        assert ChargedKey(c);
      }
    }
  }

  /** One consume: the evicted set holds the window of the log, and the new state is faithful to the new log. */
  lemma {:induction false} ConsumeStep(sets: map<string, SortedSet>, log: seq<Charge>, tiers: map<string, Tier>,
                                       clock: int, name: string, scope: string, now: int, request: int)
    requires StateOk(sets, log, tiers, clock) && name in tiers && clock <= now
    ensures var key := KeyOf(name, scope);
            var recent := InWindow(log, key, tiers[name], now);
            && Add(RemoveByScore(LiveScores(sets, key, now), 0, now - WindowMs(tiers[name])), now) == recent
            && StateOk(sets[key := SortedSet(recent, now + WindowMs(tiers[name]))],
                       log + [Charge(request, name, key, now, |recent| > tiers[name].max)], tiers, now)
  {
    var key := KeyOf(name, scope);
    var charge := Charge(request, name, key, now, |InWindow(log, key, tiers[name], now)| > tiers[name].max);
    ConsumeWindow(sets, log, tiers, clock, name, scope, now);
    ConsumeFaithful(sets, log, tiers, clock, charge, scope);
    LegalExtend(log, tiers, charge, scope);
  }

  class RateLimitGuard {
    const tiers: map<string, Tier>
    const lower: string -> string
    var sets: map<string, SortedSet>
    ghost var log: seq<Charge>
    ghost var clock: int

    constructor (tiers: map<string, Tier>, lower: string -> string)
      requires TableOk(tiers)
      ensures Valid() && sets == map[] && log == [] && clock == 0 && this.tiers == tiers && this.lower == lower
    {
      this.tiers, this.lower, this.sets, this.log, this.clock := tiers, lower, map[], [], 0;
    }

    ghost predicate Valid()
      reads this
    {
      StateOk(sets, log, tiers, clock)
    }

    /** Redis may drop an expired key at any moment. */
    method Expire(key: string, now: int)
      requires Valid() && now >= clock
      modifies this`sets, this`clock
      ensures Valid() && clock == now
    {
      ExpireFaithful(sets, log, tiers, clock, key, now);
      if key in sets && sets[key].expiresAt <= now {
        sets := sets - {key};
      }
      clock := now;
    }

    /** The MULTI block: evict, add, count and re-arm the key, and read its oldest score. The set, whatever it
        has forgotten, counts what the unbounded log has in the window. */
    method Transact(name: string, scope: string, now: int, ghost request: int) returns (count: int, oldestScore: int)
      requires Valid() && name in tiers && now >= clock
      modifies this`sets, this`log, this`clock
      ensures Valid() && clock == now
      ensures var recent := InWindow(old(log), KeyOf(name, scope), tiers[name], now);
              && count == |recent| && oldestScore == recent[0]
              && log == old(log) + [Charge(request, name, KeyOf(name, scope), now, count > tiers[name].max)]
    {
      var key, windowMs := KeyOf(name, scope), WindowMs(tiers[name]);
      ConsumeStep(sets, log, tiers, clock, name, scope, now, request);
      var scores := Add(RemoveByScore(LiveScores(sets, key, now), 0, now - windowMs), now);
      assert scores == InWindow(log, key, tiers[name], now);
      ghost var charge := Charge(request, name, key, now, |scores| > tiers[name].max);
      assert StateOk(sets[key := SortedSet(scores, now + windowMs)], log + [charge], tiers, now);
      count, oldestScore := |scores|, scores[0];
      sets, log, clock := sets[key := SortedSet(scores, now + windowMs)], log + [charge], now;
    }

    /** Charge one tier. The result is the verdict of the unbounded log. */
    method Consume(name: string, client: Client, now: int, ghost request: int) returns (result: TierResult)
      requires Valid() && name in tiers && now >= clock
      modifies this`sets, this`log, this`clock
      ensures Valid() && clock == now
      ensures var key := KeyOf(name, ResolveScope(tiers[name], client, lower));
              && result == Assess(tiers[name], InWindow(old(log), key, tiers[name], now), now)
              && log == old(log) + [Charge(request, name, key, now, result.breached)]
    {
      var tier := tiers[name];
      var scope := ResolveScope(tier, client, lower);
      var windowMs := tier.windowSeconds * 1000;
      var count, oldestScore := Transact(name, scope, now, request);
      var breached := count > tier.max;
      var retryAfter := tier.windowSeconds;
      if breached {
        retryAfter := Max(1, CeilDiv(oldestScore + windowMs - now, 1000));
      }
      result := TierResult(tier.max, tier.max - count, CeilDiv(now + windowMs, 1000), retryAfter, breached);
    }

    /** Other requests' charges, between two awaits of this one. */
    method ServeOthers(others: seq<Arrival>, ghost own: int)
      requires Valid() && ArrivalsOk(others, clock, own, tiers)
      modifies this`sets, this`log, this`clock
      ensures Valid() && clock == ClockAfter(others, |others|, old(clock))
      ensures old(log) <= log && forall p :: |old(log)| <= p < |log| ==> log[p].request != own
    {
      for j := 0 to |others|
        invariant Valid() && clock == ClockAfter(others, j, old(clock))
        invariant old(log) <= log && forall p :: |old(log)| <= p < |log| ==> log[p].request != own
      {
        assert ArrivalOk(others, j, old(clock), own, tiers);
        var result := Consume(others[j].name, others[j].client, others[j].at, others[j].request);
      }
    }

    /** One turn of the tier loop: other requests run, then the tier is charged and its result recorded. */
    method TakeTurn(name: string, client: Client, turn: Turn, ghost request: int, ghost start: nat,
                    ghost keys: seq<(string, string)>, ghost key: (string, string), ghost marks: seq<nat>,
                    ghost results: seq<TierResult>)
      returns (result: TierResult, ghost marks': seq<nat>)
      requires Valid() && name in tiers && key == (name, KeyOf(name, ResolveScope(tiers[name], client, lower)))
      requires TurnOk(turn, clock, request, tiers)
      requires start <= |log| && Recorded(log, tiers, keys, request, start, marks, results)
      modifies this`sets, this`log, this`clock
      ensures Valid() && clock == turn.now && old(log) <= log
      ensures Recorded(log, tiers, keys + [key], request, start, marks', results + [result])
    {
      ghost var before := log;
      ServeOthers(turn.others, request);
      ghost var others := log;
      result := Consume(name, client, turn.now, request);
      TurnRecorded(before, others, log[|others|], tiers, keys, key, request, start, marks, results, result);
      marks' := marks + [|others|];
    }

    /** The body of the tier loop: a turn, and what is kept of its result. */
    method ChargeTier(name: string, client: Client, turn: Turn, tightest: Option<TierResult>,
                      breach: Option<TierResult>, ghost request: int,
                      ghost start: nat, ghost keys: seq<(string, string)>, ghost marks: seq<nat>,
                      ghost results: seq<TierResult>)
      returns (tightest': Option<TierResult>, breach': Option<TierResult>, ghost marks': seq<nat>,
               ghost results': seq<TierResult>)
      requires Valid() && name in tiers && TurnOk(turn, clock, request, tiers)
      requires start <= |log| && Recorded(log, tiers, keys, request, start, marks, results)
               && Tracks(tightest, breach, results)
      modifies this`sets, this`log, this`clock
      ensures Valid() && clock == turn.now && old(log) <= log
      ensures Recorded(log, tiers, keys + [(name, KeyOf(name, ResolveScope(tiers[name], client, lower)))],
                       request, start, marks', results')
      ensures Tracks(tightest', breach', results')
    {
      var result;
      ghost var key := (name, KeyOf(name, ResolveScope(tiers[name], client, lower)));
      result, marks' := TakeTurn(name, client, turn, request, start, keys, key, marks, results);
      results' := results + [result];
      TrackNext(tightest, breach, results, result);
      tightest', breach' := tightest, breach;
      if tightest.None? || result.remaining < tightest.value.remaining {
        tightest' := Some(result);
      }
      if result.breached {
        breach' := Some(result);
      }
    }

    /** The tier loop: every tier is charged, also after a breach; the tightest result and the last breach are kept. */
    method ChargeTiers(names: seq<string>, client: Client, turns: seq<Turn>, ghost request: int)
      returns (tightest: Option<TierResult>, breach: Option<TierResult>, ghost marks: seq<nat>,
               ghost results: seq<TierResult>)
      requires Valid() && forall i :: 0 <= i < |names| ==> names[i] in tiers
      requires |turns| == |names| && TurnsOk(turns, clock, request, tiers)
      modifies this`sets, this`log, this`clock
      ensures Valid() && old(log) <= log
      ensures Recorded(log, tiers, KeysOf(names, client, tiers, lower), request, |old(log)|, marks, results)
      ensures Tracks(tightest, breach, results)
    {
      ghost var keys, done := KeysOf(names, client, tiers, lower), [];
      tightest, breach, marks, results := None, None, [], [];
      NothingCharged(log, tiers, request);
      for i := 0 to |names|
        invariant Valid() && old(log) <= log
        invariant clock == ClockBefore(turns, i, old(clock))
        invariant i <= |keys| && done == keys[..i]
        invariant Recorded(log, tiers, done, request, |old(log)|, marks, results)
        invariant Tracks(tightest, breach, results)
      {
        assert TurnInOrder(turns, i, old(clock), request, tiers);
        tightest, breach, marks, results :=
          ChargeTier(names[i], client, turns[i], tightest, breach, request, |old(log)|, done, marks, results);
        TakeNext(keys, i);
        done := done + [keys[i]];
      }
      TakeAll(keys);
    }

    /** `canActivate`. Health probes, the metrics target, other protocols, a disabled limiter and a marked request pass
        uncharged, and nothing else does: every other request is marked and charged once for each tier of its
        route, or for the default tier, none skipped after a breach, and passes exactly when none of its charges is
        over its limit. Between its awaits other requests run. */
    method CanActivate(request: HttpRequest, declared: Option<seq<string>>, enabled: bool, isHttp: bool,
                       turns: seq<Turn>)
      returns (response: Response, ghost marks: seq<nat>)
      requires Valid()
      requires declared.Some? ==> forall i :: 0 <= i < |declared.value| ==> declared.value[i] in tiers
      requires declared.None? || declared.value == [] ==> "apiDefault" in tiers
      requires !request.rateLimitApplied ==> Uncharged(log, request.id)
      requires |turns| == (if declared.None? || declared.value == [] then 1 else |declared.value|)
      requires TurnsOk(turns, clock, request.id, tiers)
      modifies this`sets, this`log, this`clock, request`rateLimitApplied
      ensures Valid() && old(log) <= log
      ensures !enabled || !isHttp || old(request.rateLimitApplied)
              || request.path == "/health" || "/health/" <= request.path || "/metrics" <= request.path ==>
                && response == Response(true, None, None) && log == old(log)
                && request.rateLimitApplied == old(request.rateLimitApplied)
      ensures enabled && isHttp && !old(request.rateLimitApplied)
              && request.path != "/health" && !("/health/" <= request.path) && !("/metrics" <= request.path) ==>
                var names := if declared.None? || declared.value == [] then ["apiDefault"] else declared.value;
                && request.rateLimitApplied
                && Charged(log, KeysOf(names, request.client, tiers, lower), request.id, |old(log)|, marks)
                && MarksIn(log, tiers, marks) && Answers(response, Results(log, tiers, marks))
                && (response.admitted <==> Unbreached(log, request.id))
    {
      marks := [];
      if !enabled || !isHttp {
        return Response(true, None, None), marks;
      }
      if ProbePath(request.path) {
        return Response(true, None, None), marks;
      }
      if request.rateLimitApplied {
        return Response(true, None, None), marks;
      }
      request.rateLimitApplied := true;

      var names := DeclaredTiers(declared);
      ghost var results: seq<TierResult>;
      var tightest, breach;
      tightest, breach, marks, results := ChargeTiers(names, request.client, turns, request.id);
      AnswerFromTracks(tightest.value, breach, results);
      var headers := None;
      if tightest.Some? {
        headers := Some(Headers(tightest.value.limit, Max(0, tightest.value.remaining), tightest.value.resetSeconds));
      }
      if breach.Some? {
        response := Response(false, headers, Some(breach.value.retryAfter));
      } else {
        response := Response(true, headers, None);
      }
      assert Answers(response, results);
      AdmittedIsUnbreached(log, tiers, KeysOf(names, request.client, tiers, lower), request.id, |old(log)|, marks,
                           response);
      ChargedSince(old(log), log, request.id);
    }
  }
}
