/** Charges against sliding windows: what an unbounded log of every request says.
    Times are in milliseconds. */
module RateLimitLog {
  import opened Wrappers

  datatype KeyBy = ByIp | ByUser | ByUserOrIp | ByIpAndEmail

  datatype Tier = Tier(windowSeconds: int, max: int, keyBy: KeyBy)

  function WindowMs(tier: Tier): int { tier.windowSeconds * 1000 }

  /** The tier table: names without colons, windows of at least a second. */
  ghost predicate TableOk(tiers: map<string, Tier>) {
    forall name :: name in tiers ==> ':' !in name && tiers[name].windowSeconds >= 1
  }

  /** What a request tells the guard about its sender. */
  datatype Client = Client(ip: Option<string>, remoteAddress: Option<string>, userId: Option<string>,
                           email: Option<string>)

  /** `lower` is `toLowerCase`. */
  function ResolveScope(tier: Tier, c: Client, lower: string -> string): string {
    var ip := Address(c);
    match tier.keyBy
    case ByIp => "ip:" + ip
    case ByUser => if c.userId.Some? then "user:" + c.userId.value else "ip:" + ip
    case ByUserOrIp => if c.userId.Some? then "user:" + c.userId.value else "ip:" + ip
    case ByIpAndEmail => "ip:" + ip + ":email:" + EmailPart(c, lower)
  }

  function KeyOf(name: string, scope: string): string {
    "ratelimit:" + name + ":" + scope
  }

  /** No two tiers, and no two scopes of one tier, share a key. */
  lemma {:induction false} KeyInjective(name: string, scope: string, name': string, scope': string)
    requires ':' !in name && ':' !in name' && KeyOf(name, scope) == KeyOf(name', scope')
    ensures name == name' && scope == scope'
  {
    var rest, n, n' := KeyOf(name, scope)[10..], |name|, |name'|;
    assert rest == name + ":" + scope == name' + ":" + scope';
    assert rest[n] == ':' && rest[n'] == ':';
    assert forall i :: 0 <= i < n ==> rest[i] == name[i];
    assert forall i :: 0 <= i < n' ==> rest[i] == name'[i];
    assert n == n';
    assert rest[..n] == name && rest[..n] == name';
    assert rest[n + 1..] == scope && rest[n + 1..] == scope';
  }

  function Address(c: Client): string {
    if c.ip.Some? then c.ip.value else if c.remoteAddress.Some? then c.remoteAddress.value else "unknown"
  }

  function EmailPart(c: Client, lower: string -> string): string {
    if c.email.Some? then lower(c.email.value) else "anon"
  }

  const EMAIL_MARK := ":email:"

  /** No mark begins inside the address where one follows it: it holds none and does not end in all but its colon. */
  predicate Unmarked(address: string) {
    forall i :: 0 <= i < |address| ==> !(EMAIL_MARK <= (address + EMAIL_MARK)[i..])
  }

  /** Whether a tier counts two clients as one: by user if both have one, by address if neither has, by address
      and lower-case email for the tiers that use it. */
  predicate SameSubject(tier: Tier, c: Client, d: Client, lower: string -> string) {
    match tier.keyBy
    case ByIp => Address(c) == Address(d)
    case ByIpAndEmail => Address(c) == Address(d) && EmailPart(c, lower) == EmailPart(d, lower)
    case _ => c.userId == d.userId && (c.userId.None? ==> Address(c) == Address(d))
  }

  lemma {:induction false} MarkInside(a: string, x: string, b: string, y: string)
    requires |a| < |b| && a + EMAIL_MARK + x == b + EMAIL_MARK + y
    ensures EMAIL_MARK <= (b + EMAIL_MARK)[|a|..]
  {
    var s := b + EMAIL_MARK + y;
    assert (a + EMAIL_MARK + x)[|a|..|a| + 7] == EMAIL_MARK;
    assert (b + EMAIL_MARK)[|a|..][..7] == s[|a|..|a| + 7];
  }

  lemma {:induction false} MarkedFirst(a: string, x: string, b: string, y: string)
    requires Unmarked(b) && a + EMAIL_MARK + x == b + EMAIL_MARK + y
    ensures |a| >= |b|
  {
    if |a| < |b| {
      MarkInside(a, x, b, y);
    }
  }

  lemma {:induction false} MarkedApart(a: string, x: string, b: string, y: string)
    requires Unmarked(a) && Unmarked(b) && a + EMAIL_MARK + x == b + EMAIL_MARK + y
    ensures a == b && x == y
  {
    MarkedFirst(a, x, b, y);
    MarkedFirst(b, y, a, x);
    var s := a + EMAIL_MARK + x;
    assert a == s[..|a|] && b == s[..|b|];
    assert x == s[|a| + 7..] && y == s[|b| + 7..];
  }

  lemma {:induction false} SamePrefix(prefix: string, a: string, b: string)
    ensures prefix + a == prefix + b <==> a == b
  {
    assert (prefix + a)[|prefix|..] == a && (prefix + b)[|prefix|..] == b;
  }

  /** Two clients share a scope of a tier exactly when the tier counts them as one, for unmarked addresses. */
  lemma {:induction false} ScopeExact(tier: Tier, c: Client, d: Client, lower: string -> string)
    requires Unmarked(Address(c)) && Unmarked(Address(d))
    ensures ResolveScope(tier, c, lower) == ResolveScope(tier, d, lower) <==> SameSubject(tier, c, d, lower)
  {
    var a, b, x, y := Address(c), Address(d), EmailPart(c, lower), EmailPart(d, lower);
    SamePrefix("ip:", a, b);
    if tier.keyBy.ByIpAndEmail? {
      assert ResolveScope(tier, c, lower) == "ip:" + (a + EMAIL_MARK + x);
      assert ResolveScope(tier, d, lower) == "ip:" + (b + EMAIL_MARK + y);
      SamePrefix("ip:", a + EMAIL_MARK + x, b + EMAIL_MARK + y);
      if a + EMAIL_MARK + x == b + EMAIL_MARK + y {
        MarkedApart(a, x, b, y);
      }
    } else if !tier.keyBy.ByIp? {
      if c.userId.Some? && d.userId.Some? {
        SamePrefix("user:", c.userId.value, d.userId.value);
      } else if c.userId != d.userId {
        assert ResolveScope(tier, c, lower)[0] != ResolveScope(tier, d, lower)[0];
      }
    }
  }

  /** An address that ends in all but the mark's colon can share a scope with a shorter one, though it holds no mark. */
  lemma {:induction false} MarkedShare(tier: Tier, c: Client, d: Client, lower: string -> string)
    requires tier.keyBy.ByIpAndEmail? && Address(c) == Address(d) + ":email"
    requires EmailPart(d, lower) == "email:" + EmailPart(c, lower)
    ensures ResolveScope(tier, c, lower) == ResolveScope(tier, d, lower) && !SameSubject(tier, c, d, lower)
  {
    var address, email := Address(d), EmailPart(c, lower);
    assert address + ":email" + EMAIL_MARK + email == address + EMAIL_MARK + ("email:" + email);
    assert ResolveScope(tier, c, lower) == "ip:" + (address + ":email" + EMAIL_MARK + email);
    assert ResolveScope(tier, d, lower) == "ip:" + (address + EMAIL_MARK + ("email:" + email));
    assert |address + ":email"| != |address|;
  }

  /** The scope of a client whose address is `ip`, for each way of keying. */
  lemma ScopeForms(tier: Tier, c: Client, lower: string -> string, ip: string)
    requires c.ip == Some(ip) || (c.ip.None? && c.remoteAddress == Some(ip))
             || (c.ip.None? && c.remoteAddress.None? && ip == "unknown")
    ensures tier.keyBy == ByIp ==> ResolveScope(tier, c, lower) == "ip:" + ip
    ensures tier.keyBy == ByUser || tier.keyBy == ByUserOrIp ==>
              ResolveScope(tier, c, lower) == (if c.userId.Some? then "user:" + c.userId.value else "ip:" + ip)
    ensures tier.keyBy == ByIpAndEmail && c.email.Some? ==>
              ResolveScope(tier, c, lower) == "ip:" + ip + ":email:" + lower(c.email.value)
    ensures tier.keyBy == ByIpAndEmail && c.email.None? ==> ResolveScope(tier, c, lower) == "ip:" + ip + ":email:anon"
  {
  }

  /** One request charged against one tier, and whether the tier was found over its limit. */
  datatype Charge = Charge(request: int, name: string, key: string, at: int, breached: bool)

  /** The times at which a key was charged, oldest first. */
  function Times(log: seq<Charge>, key: string): seq<int> {
    if log == [] then []
    else
      var last := log[|log| - 1];
      Times(log[..|log| - 1], key) + (if last.key == key then [last.at] else [])
  }

  /** The times after `low`. */
  function Recent(times: seq<int>, low: int): seq<int> {
    if times == [] then []
    else
      var last := times[|times| - 1];
      Recent(times[..|times| - 1], low) + (if last > low then [last] else [])
  }

  datatype TierResult = TierResult(limit: int, remaining: int, resetSeconds: int, retryAfter: int, breached: bool)

  function CeilDiv(a: int, b: int): int
    requires b > 0
  {
    -((-a) / b)
  }

  function Max(a: int, b: int): int { if a >= b then a else b }

  /** The decision about the last of the charges `recent` within the window. */
  function Assess(tier: Tier, recent: seq<int>, now: int): TierResult
    requires recent != []
  {
    var breached := |recent| > tier.max;
    TierResult(tier.max, tier.max - |recent|, CeilDiv(now + WindowMs(tier), 1000),
               if breached then Max(1, CeilDiv(recent[0] + WindowMs(tier) - now, 1000)) else tier.windowSeconds,
               breached)
  }

  /** The result in whole seconds: limit and remainder, the first second by which the window of this charge is over,
      and on a breach the fewest seconds, at least one, after which the oldest charge has left the window. */
  lemma {:induction false} AssessExact(tier: Tier, recent: seq<int>, now: int)
    requires recent != []
    ensures var r, window := Assess(tier, recent, now), tier.windowSeconds * 1000;
            && r.limit == tier.max && r.remaining == tier.max - |recent| && (r.breached <==> |recent| > tier.max)
            && (r.resetSeconds - 1) * 1000 < now + window <= r.resetSeconds * 1000
            && (!r.breached ==> r.retryAfter == tier.windowSeconds)
            && (r.breached ==>
                && r.retryAfter >= 1 && recent[0] + window - now <= r.retryAfter * 1000
                && (r.retryAfter > 1 ==> (r.retryAfter - 1) * 1000 < recent[0] + window - now))
  {
    var window := tier.windowSeconds * 1000;
    CeilDivBounds(now + window, 1000);
    CeilDivBounds(recent[0] + window - now, 1000);
  }

  /** The charges of `key` in the window (now - W, now], one made now included, in a log that forgets nothing. */
  function InWindow(log: seq<Charge>, key: string, tier: Tier, now: int): seq<int> {
    Recent(Times(log, key), now - WindowMs(tier)) + [now]
  }

  ghost function AssessAt(log: seq<Charge>, p: nat, tiers: map<string, Tier>): TierResult
    requires p < |log| && log[p].name in tiers
  {
    var c := log[p];
    Assess(tiers[c.name], InWindow(log[..p], c.key, tiers[c.name], c.at), c.at)
  }

  /** The log of a run: time never goes back, every charge is under its own key, and every verdict is the log's. */
  ghost predicate LegalLog(log: seq<Charge>, tiers: map<string, Tier>) {
    && TableOk(tiers)
    && Monotone(log)
    && (forall p :: 0 <= p < |log| ==> log[p].at >= 0 && log[p].name in tiers)
    && (forall p :: 0 <= p < |log| ==> Sound(log, p, tiers))
  }

  ghost predicate Sound(log: seq<Charge>, p: nat, tiers: map<string, Tier>)
    requires p < |log| && log[p].name in tiers
  {
    ChargedKey(log[p]) && log[p].breached == AssessAt(log, p, tiers).breached
  }

  ghost predicate Monotone(log: seq<Charge>) {
    forall p, q :: 0 <= p < q < |log| ==> log[p].at <= log[q].at
  }

  ghost predicate ChargedKey(c: Charge) {
    exists scope :: c.key == KeyOf(c.name, scope)
  }

  // ------------------------------------------------------------- basic facts

  lemma {:induction false} TimesConcat(a: seq<Charge>, b: seq<Charge>, key: string)
    ensures Times(a + b, key) == Times(a, key) + Times(b, key)
  {
    if b == [] {
      assert a + b == a;
    } else {
      assert (a + b)[..|a + b| - 1] == a + b[..|b| - 1];
      TimesConcat(a, b[..|b| - 1], key);
    }
  }

  lemma {:induction false} TimesSnoc(log: seq<Charge>, c: Charge, key: string)
    ensures Times(log + [c], key) == Times(log, key) + (if c.key == key then [c.at] else [])
  {
    assert (log + [c])[..|log|] == log;
  }

  lemma {:induction false} RecentConcat(a: seq<int>, b: seq<int>, low: int)
    ensures Recent(a + b, low) == Recent(a, low) + Recent(b, low)
  {
    if b == [] {
      assert a + b == a;
    } else {
      assert (a + b)[..|a + b| - 1] == a + b[..|b| - 1];
      RecentConcat(a, b[..|b| - 1], low);
    }
  }

  lemma {:induction false} RecentNone(times: seq<int>, low: int)
    requires forall i :: 0 <= i < |times| ==> times[i] <= low
    ensures Recent(times, low) == []
  {
    if times != [] {
      RecentNone(times[..|times| - 1], low);
    }
  }

  lemma {:induction false} RecentAll(times: seq<int>, low: int)
    requires forall i :: 0 <= i < |times| ==> times[i] > low
    ensures Recent(times, low) == times
  {
    if times != [] {
      RecentAll(times[..|times| - 1], low);
    }
  }

  ghost predicate Sorted(times: seq<int>) {
    forall i, j :: 0 <= i < j < |times| ==> times[i] <= times[j]
  }

  /** The times after `low` are those from `n` on. */
  ghost predicate CutsAt(times: seq<int>, low: int, n: int) {
    && 0 <= n <= |times|
    && (forall i :: 0 <= i < n ==> times[i] <= low)
    && (forall i :: n <= i < |times| ==> times[i] > low)
  }

  lemma {:induction false} RecentFrom(times: seq<int>, low: int, n: nat)
    requires CutsAt(times, low, n)
    ensures Recent(times, low) == times[n..]
  {
    assert times == times[..n] + times[n..];
    RecentConcat(times[..n], times[n..], low);
    RecentNone(times[..n], low);
    RecentAll(times[n..], low);
  }

  lemma {:induction false} SortedCuts(times: seq<int>, low: int) returns (n: nat)
    requires Sorted(times)
    ensures CutsAt(times, low, n)
  {
    n := 0;
    if times != [] {
      var last := |times| - 1;
      if times[last] <= low {
        n := |times|;
      } else {
        n := SortedCuts(times[..last], low);
      }
    }
  }

  /** In a sorted list the recent times are the tail. */
  lemma {:induction false} RecentTail(times: seq<int>, low: int)
    requires Sorted(times)
    ensures var n := |times| - |Recent(times, low)|; CutsAt(times, low, n) && Recent(times, low) == times[n..]
  {
    var n := SortedCuts(times, low);
    RecentFrom(times, low, n);
  }

  ghost predicate ChargedAt(log: seq<Charge>, key: string, t: int) {
    exists p :: 0 <= p < |log| && log[p].key == key && log[p].at == t
  }

  lemma {:induction false} TimesCharged(log: seq<Charge>, key: string)
    ensures forall i :: 0 <= i < |Times(log, key)| ==> ChargedAt(log, key, Times(log, key)[i])
  {
    if log != [] {
      var front, c := log[..|log| - 1], log[|log| - 1];
      TimesCharged(front, key);
      forall t | ChargedAt(front, key, t)
        ensures ChargedAt(log, key, t)
      {
        var p :| 0 <= p < |front| && front[p].key == key && front[p].at == t;
        assert log[p] == front[p];
      }
      assert ChargedAt(log, c.key, c.at);
    }
  }

  lemma {:induction false} TimesSorted(log: seq<Charge>, key: string)
    requires Monotone(log)
    ensures Sorted(Times(log, key))
    ensures log != [] ==> forall i :: 0 <= i < |Times(log, key)| ==> Times(log, key)[i] <= log[|log| - 1].at
  {
    if log != [] {
      TimesSorted(log[..|log| - 1], key);
    }
  }

  lemma {:induction false} LegalPrefix(log: seq<Charge>, tiers: map<string, Tier>, n: nat)
    requires LegalLog(log, tiers) && n <= |log|
    ensures LegalLog(log[..n], tiers)
  {
    forall p | 0 <= p < n
      ensures Sound(log[..n], p, tiers)
    {
      assert Sound(log, p, tiers);
      assert log[..n][..p] == log[..p];
    }
  }

  lemma {:induction false} KeyNamesTier(log: seq<Charge>, tiers: map<string, Tier>, p: nat, name: string, scope: string)
    requires LegalLog(log, tiers) && p < |log| && name in tiers && log[p].key == KeyOf(name, scope)
    ensures log[p].name == name
  {
    assert Sound(log, p, tiers);
    var own :| log[p].key == KeyOf(log[p].name, own);
    KeyInjective(log[p].name, own, name, scope);
  }

  /** The charges of a key after `low`. */
  ghost function ChargesAfter(log: seq<Charge>, key: string, low: int): set<nat> {
    set p: nat | p < |log| && log[p].key == key && log[p].at > low
  }

  lemma {:induction false} ChargesSnoc(log: seq<Charge>, c: Charge, key: string, low: int)
    ensures ChargesAfter(log + [c], key, low) ==
            ChargesAfter(log, key, low) + (if c.key == key && c.at > low then {|log|} else {})
  {
    var log' := log + [c];
    assert forall p :: 0 <= p < |log| ==> log'[p] == log[p];
    assert log'[|log|] == c;
  }

  lemma {:induction false} TimesCount(times: seq<int>, c: Charge, key: string, low: int)
    ensures |Recent(times + (if c.key == key then [c.at] else []), low)| ==
            |Recent(times, low)| + (if c.key == key && c.at > low then 1 else 0)
  {
    RecentConcat(times, if c.key == key then [c.at] else [], low);
    RecentOne(c.at, low);
  }

  lemma {:induction false} RecentCount(log: seq<Charge>, key: string, low: int)
    ensures |Recent(Times(log, key), low)| == |ChargesAfter(log, key, low)|
  {
    if log != [] {
      var n, c := |log| - 1, log[|log| - 1];
      assert log == log[..n] + [c];
      RecentCount(log[..n], key, low);
      TimesCount(Times(log[..n], key), c, key, low);
      ChargesSnoc(log[..n], c, key, low);
      assert n !in ChargesAfter(log[..n], key, low);
    }
  }

  /** The first of the recent times is that of the earliest charge after `low`. */
  lemma {:induction false} RecentFirst(log: seq<Charge>, key: string, low: int)
    requires Monotone(log)
    ensures var recent, past := Recent(Times(log, key), low), ChargesAfter(log, key, low);
            && (recent == [] <==> past == {})
            && (recent != [] ==> (forall p :: p in past ==> recent[0] <= log[p].at)
                                 && exists p :: p in past && log[p].at == recent[0])
  {
    var times, past := Times(log, key), ChargesAfter(log, key, low);
    RecentCount(log, key, low);
    TimesSorted(log, key);
    TimesCharged(log, key);
    RecentTail(times, low);
    forall p | p in past
      ensures Recent(times, low) != [] && Recent(times, low)[0] <= log[p].at
    {
      TimesContain(log, key, p);
    }
    if Recent(times, low) != [] {
      var t := Recent(times, low)[0];
      assert t in times && ChargedAt(log, key, t);
      var p :| 0 <= p < |log| && log[p].key == key && log[p].at == t;
      assert p in past;
    }
  }

  /** The window counts this charge and every charge of the key less than its length ago, and its first time is the
      earliest of them. */
  lemma {:induction false} WindowExact(log: seq<Charge>, key: string, tier: Tier, now: int)
    requires Monotone(log) && (log != [] ==> log[|log| - 1].at <= now) && tier.windowSeconds >= 1
    ensures var recent, past := InWindow(log, key, tier, now), ChargesAfter(log, key, now - tier.windowSeconds * 1000);
            && |recent| == |past| + 1 && recent[0] <= now
            && (forall p :: p in past ==> recent[0] <= log[p].at)
            && (past == {} ==> recent[0] == now)
            && (past != {} ==> exists p :: p in past && log[p].at == recent[0])
  {
    var low := now - tier.windowSeconds * 1000;
    RecentCount(log, key, low);
    RecentFirst(log, key, low);
    assert forall p :: p in ChargesAfter(log, key, low) ==> log[p].at <= log[|log| - 1].at;
  }

  lemma {:induction false} TimesContain(log: seq<Charge>, key: string, p: nat)
    requires p < |log| && log[p].key == key
    ensures log[p].at in Times(log, key)
  {
    if p < |log| - 1 {
      TimesContain(log[..|log| - 1], key, p);
    }
  }

  // ------------------------------------------------------- the rate bound

  /** Charges of a key in (low, high] that were let through. */
  function Passed(log: seq<Charge>, key: string, low: int, high: int): nat {
    if log == [] then 0
    else
      var c := log[|log| - 1];
      Passed(log[..|log| - 1], key, low, high) + (if Passes(c, key, low, high) then 1 else 0)
  }

  predicate Passes(c: Charge, key: string, low: int, high: int) {
    c.key == key && low < c.at <= high && !c.breached
  }

  lemma {:induction false} PassedAreRecent(log: seq<Charge>, key: string, low: int, high: int, low': int)
    requires low' <= low
    ensures Passed(log, key, low, high) <= |Recent(Times(log, key), low')|
  {
    if log != [] {
      var front, c := log[..|log| - 1], log[|log| - 1];
      PassedAreRecent(front, key, low, high, low');
      RecentConcat(Times(front, key), if c.key == key then [c.at] else [], low');
      assert c.key == key && c.at > low' ==> Recent([c.at], low') == [c.at] by { assert [c.at][..0] == []; }
    }
  }

  /** No window of a tier's length holds more than `max` charges that were let through, for any key and any
      instant, however the requests interleave. */
  lemma {:induction false} PassedBound(log: seq<Charge>, tiers: map<string, Tier>, name: string, scope: string, t: int)
    requires LegalLog(log, tiers) && name in tiers && tiers[name].max >= 0
    ensures Passed(log, KeyOf(name, scope), t - WindowMs(tiers[name]), t) <= tiers[name].max
  {
    if log != [] {
      var key, low := KeyOf(name, scope), t - WindowMs(tiers[name]);
      var n := |log| - 1;
      LegalPrefix(log, tiers, n);
      PassedBound(log[..n], tiers, name, scope, t);
      if Passes(log[n], key, low, t) {
        KeyNamesTier(log, tiers, n, name, scope);
        PassedAreRecent(log[..n], key, low, t, log[n].at - WindowMs(tiers[name]));
        assert Sound(log, n, tiers);
      }
    }
  }

  /** An unmarked request has not been charged. */
  ghost predicate Uncharged(log: seq<Charge>, request: int) {
    forall p :: 0 <= p < |log| ==> log[p].request != request
  }

  /** No charge of the request was over its limit. */
  ghost predicate Unbreached(log: seq<Charge>, request: int) {
    UnbreachedSince(log, request, 0)
  }

  ghost predicate UnbreachedSince(log: seq<Charge>, request: int, start: nat) {
    forall p :: start <= p < |log| && log[p].request == request ==> !log[p].breached
  }

  /** The requests charged to `key` in (low, high] none of whose charges were over a limit. */
  ghost function Admitted(log: seq<Charge>, key: string, low: int, high: int): set<int> {
    set p | 0 <= p < |log| && Passes(log[p], key, low, high) && Unbreached(log, log[p].request) :: log[p].request
  }

  ghost function Passers(log: seq<Charge>, key: string, low: int, high: int): set<int> {
    set p | 0 <= p < |log| && Passes(log[p], key, low, high) :: log[p].request
  }

  lemma {:induction false} PassersBound(log: seq<Charge>, key: string, low: int, high: int)
    ensures |Passers(log, key, low, high)| <= Passed(log, key, low, high)
  {
    if log != [] {
      var front, c := log[..|log| - 1], log[|log| - 1];
      PassersBound(front, key, low, high);
      var all, some := Passers(log, key, low, high), Passers(front, key, low, high);
      forall r | r in all
        ensures r in some || (r == c.request && Passes(c, key, low, high))
      {
        var p :| 0 <= p < |log| && Passes(log[p], key, low, high) && log[p].request == r;
        if p < |front| {
          assert front[p] == log[p];
        }
      }
      if Passes(c, key, low, high) {
        assert all <= some + {c.request};
        Subset(all, some + {c.request});
      } else {
        Subset(all, some);
      }
    }
  }

  lemma {:induction false} Subset(a: set<int>, b: set<int>)
    requires a <= b
    ensures |a| <= |b|
  {
    assert b == a + (b - a);
  }

  /** The rate limit: for every tier and scope at once, no interval (t - W, t] contains more than `max` admitted
      requests. */
  lemma {:induction false} RateBound(log: seq<Charge>, tiers: map<string, Tier>, name: string, scope: string, t: int)
    requires LegalLog(log, tiers) && name in tiers && tiers[name].max >= 0
    ensures |Admitted(log, KeyOf(name, scope), t - WindowMs(tiers[name]), t)| <= tiers[name].max
  {
    var key, low := KeyOf(name, scope), t - WindowMs(tiers[name]);
    PassedBound(log, tiers, name, scope, t);
    PassersBound(log, key, low, t);
    assert Admitted(log, key, low, t) <= Passers(log, key, low, t);
    Subset(Admitted(log, key, low, t), Passers(log, key, low, t));
  }

  // ------------------------------------------------------------ Retry-After

  lemma {:induction false} CeilDivBounds(a: int, b: int)
    requires b > 0
    ensures (CeilDiv(a, b) - 1) * b < a <= CeilDiv(a, b) * b
  {
    var q := (-a) / b;
    assert q * b <= -a < q * b + b;
    assert CeilDiv(a, b) * b == -(q * b);
    assert (CeilDiv(a, b) - 1) * b == CeilDiv(a, b) * b - b;
  }

  lemma {:induction false} TimesBefore(log: seq<Charge>, p: nat, key: string)
    requires Monotone(log) && p < |log|
    ensures Sorted(Times(log[..p], key))
    ensures forall i :: 0 <= i < |Times(log[..p], key)| ==> Times(log[..p], key)[i] <= log[p].at
  {
    TimesSorted(log[..p], key);
  }

  lemma {:induction false} WindowOldest(times: seq<int>, low: int, now: int)
    requires Sorted(times) && low < now && forall i :: 0 <= i < |times| ==> times[i] <= now
    ensures var recent := Recent(times, low) + [now];
            low < recent[0] <= now && forall i :: 0 <= i < |recent| ==> recent[0] <= recent[i] <= now
  {
    RecentTail(times, low);
  }

  lemma {:induction false} OldestInWindow(log: seq<Charge>, tiers: map<string, Tier>, p: nat)
    requires LegalLog(log, tiers) && p < |log|
    ensures var c, tier := log[p], tiers[log[p].name];
            var recent := InWindow(log[..p], c.key, tier, c.at);
            && c.at - WindowMs(tier) < recent[0] <= c.at
            && (forall i :: 0 <= i < |recent| ==> recent[0] <= recent[i] <= c.at)
  {
    var c, tier := log[p], tiers[log[p].name];
    TimesBefore(log, p, c.key);
    WindowOldest(Times(log[..p], c.key), c.at - WindowMs(tier), c.at);
  }

  /** A refusal reports between one second and the whole window. */
  lemma {:induction false} RetryAfterRange(log: seq<Charge>, tiers: map<string, Tier>, p: nat)
    requires LegalLog(log, tiers) && p < |log| && log[p].breached
    ensures 1 <= AssessAt(log, p, tiers).retryAfter <= tiers[log[p].name].windowSeconds
  {
    assert Sound(log, p, tiers);
    var c, tier := log[p], tiers[log[p].name];
    OldestInWindow(log, tiers, p);
    var recent := InWindow(log[..p], c.key, tier, c.at);
    CeilDivBounds(recent[0] + WindowMs(tier) - c.at, 1000);
  }

  lemma {:induction false} TimesBetween(log: seq<Charge>, p: nat, q: nat)
    requires p < q <= |log|
    ensures Times(log[..q], log[p].key) == Times(log[..p], log[p].key) + [log[p].at] + Times(log[p + 1..q], log[p].key)
  {
    var key := log[p].key;
    assert log[..q] == log[..p] + [log[p]] + log[p + 1..q];
    TimesConcat(log[..p] + [log[p]], log[p + 1..q], key);
    TimesSnoc(log[..p], log[p], key);
  }

  /** While the oldest charge of a full window stays in it, so does every charge that was in it. */
  lemma {:induction false} WindowKeeps(before: seq<int>, now: int, later: seq<int>, after: seq<int>, window: int,
                                       now': int)
    requires Sorted(before) && window > 0 && after == before + [now] + later
    requires now' - window < (Recent(before, now - window) + [now])[0]
    requires forall i :: 0 <= i < |before| ==> before[i] <= now
    ensures |Recent(after, now' - window)| >= |Recent(before, now - window)| + 1
  {
    var low, low' := now - window, now' - window;
    WindowOldest(before, low, now);
    RecentTail(before, low);
    var n := |before| - |Recent(before, low)|;
    var kept := before[n..] + [now];
    CutBefore(before, n, now, later);
    RecentAll(kept, low');
    RecentAround(before[..n], kept, later, low');
  }

  lemma CutBefore(before: seq<int>, n: nat, now: int, later: seq<int>)
    requires n <= |before|
    ensures before + [now] + later == before[..n] + ((before[n..] + [now]) + later)
  {
  }

  lemma {:induction false} RecentAround(front: seq<int>, kept: seq<int>, later: seq<int>, low: int)
    ensures |Recent(front + (kept + later), low)| >= |Recent(kept, low)|
  {
    RecentConcat(front, kept + later, low);
    RecentConcat(kept, later, low);
  }

  /** Up to a second short of the wait, the oldest charge has not left the window. */
  lemma {:induction false} BeforeRetryAfter(oldest: int, window: int, now: int, later: int)
    requires oldest > now - window
    requires later <= now + (Max(1, CeilDiv(oldest + window - now, 1000)) - 1) * 1000
    ensures later - window < oldest
  {
    CeilDivBounds(oldest + window - now, 1000);
  }

  lemma {:induction false} WindowStillFull(log: seq<Charge>, p: nat, q: nat, window: int)
    requires Monotone(log) && p < q < |log| && log[q].key == log[p].key && window > 0
    requires log[q].at - window < (Recent(Times(log[..p], log[p].key), log[p].at - window) + [log[p].at])[0]
    ensures |Recent(Times(log[..q], log[p].key), log[q].at - window)|
            > |Recent(Times(log[..p], log[p].key), log[p].at - window)|
  {
    var key := log[p].key;
    TimesBetween(log, p, q);
    TimesBefore(log, p, key);
    WindowKeeps(Times(log[..p], key), log[p].at, Times(log[p + 1..q], key), Times(log[..q], key), window, log[q].at);
  }

  /** Every later charge of the key up to one second short of the reported wait is refused too, whatever else
      happens. */
  lemma {:induction false} RetryAfterLowerBound(log: seq<Charge>, tiers: map<string, Tier>, p: nat, q: nat)
    requires LegalLog(log, tiers) && p < q < |log| && log[p].breached
    requires log[q].name == log[p].name && log[q].key == log[p].key
    requires log[q].at <= log[p].at + (AssessAt(log, p, tiers).retryAfter - 1) * 1000
    ensures log[q].breached
  {
    var c, tier := log[p], tiers[log[p].name];
    var oldest := InWindow(log[..p], c.key, tier, c.at)[0];
    assert Sound(log, p, tiers);
    OldestInWindow(log, tiers, p);
    BeforeRetryAfter(oldest, WindowMs(tier), c.at, log[q].at);
    WindowStillFull(log, p, q, WindowMs(tier));
    assert Sound(log, q, tiers);
  }

  lemma {:induction false} TimesNone(log: seq<Charge>, key: string)
    requires forall i :: 0 <= i < |log| ==> log[i].key != key
    ensures Times(log, key) == []
  {
    if log != [] {
      TimesNone(log[..|log| - 1], key);
    }
  }

  /** Fewer than `k` of sorted times are recent exactly when the `k`-th last is not. */
  lemma {:induction false} FewerRecent(times: seq<int>, low: int, k: nat)
    requires Sorted(times) && 1 <= k <= |times|
    ensures |Recent(times, low)| < k <==> times[|times| - k] <= low
  {
    RecentTail(times, low);
  }

  /** What a charge saw in its window is the end of what was charged up to it. */
  lemma {:induction false} WindowIsEnd(before: seq<int>, low: int, now: int)
    requires Sorted(before)
    ensures var recent := Recent(before, low) + [now];
            |recent| <= |before| + 1 && recent == (before + [now])[|before| + 1 - |recent|..]
  {
    RecentTail(before, low);
  }

  /** The next charge of a key, one window later or less: it is let through exactly when the `max`-th last
      of the times the refused charge saw, its own included, has left the window. */
  lemma {:induction false} NextWindow(before: seq<int>, now: int, window: int, max: int, later: int)
    requires Sorted(before) && forall i :: 0 <= i < |before| ==> before[i] <= now
    requires max >= 1 && |Recent(before, now - window) + [now]| > max
    ensures var recent := Recent(before, now - window) + [now];
            |Recent(before + [now], later - window)| < max <==> later >= recent[|recent| - max] + window
  {
    var recent, times := Recent(before, now - window) + [now], before + [now];
    WindowIsEnd(before, now - window, now);
    FewerRecent(times, later - window, max);
    SameEnd(times, recent, max);
  }

  lemma SameEnd(times: seq<int>, end: seq<int>, k: nat)
    requires 1 <= k <= |end| <= |times| && end == times[|times| - |end|..]
    ensures times[|times| - k] == end[|end| - k]
  {
  }

  lemma {:induction false} NextCharge(log: seq<Charge>, p: nat, q: nat)
    requires p < q < |log| && log[q].key == log[p].key
    requires forall i :: p < i < q ==> log[i].key != log[p].key
    ensures Times(log[..q], log[q].key) == Times(log[..p], log[p].key) + [log[p].at]
  {
    TimesBetween(log, p, q);
    TimesNone(log[p + 1..q], log[p].key);
  }

  /** Exactly when waiting after a refusal helps, if the key is not charged meanwhile: when the `max`-th last time
      the refused charge saw in its window has left the window. With a limit below one it never does. */
  lemma {:induction false} WaitingExact(log: seq<Charge>, tiers: map<string, Tier>, p: nat, q: nat)
    requires LegalLog(log, tiers) && p < q < |log| && log[p].breached
    requires log[q].name == log[p].name && log[q].key == log[p].key
    requires forall i :: p < i < q ==> log[i].key != log[p].key
    ensures var tier := tiers[log[p].name];
            var recent := InWindow(log[..p], log[p].key, tier, log[p].at);
            && |recent| > tier.max
            && (log[q].breached <==>
                tier.max < 1 || log[q].at < recent[|recent| - tier.max] + WindowMs(tier))
  {
    var c, tier := log[p], tiers[log[p].name];
    assert Sound(log, p, tiers) && Sound(log, q, tiers);
    NextCharge(log, p, q);
    if tier.max >= 1 {
      TimesBefore(log, p, c.key);
      NextWindow(Times(log[..p], c.key), c.at, WindowMs(tier), tier.max, log[q].at);
    }
  }

  /** So waiting out exactly `Retry-After` helps when the `max`-th last time the refused charge saw is no later than the
      oldest by more than the rounding up to seconds; with a limit of one, only when the whole window was reported. */
  lemma {:induction false} RetryAfterExact(log: seq<Charge>, tiers: map<string, Tier>, p: nat, q: nat)
    requires LegalLog(log, tiers) && p < q < |log| && log[p].breached
    requires log[q].name == log[p].name && log[q].key == log[p].key
    requires forall i :: p < i < q ==> log[i].key != log[p].key
    requires log[q].at == log[p].at + AssessAt(log, p, tiers).retryAfter * 1000
    ensures var tier := tiers[log[p].name];
            var recent := InWindow(log[..p], log[p].key, tier, log[p].at);
            var rounding := AssessAt(log, p, tiers).retryAfter * 1000 - (recent[0] + WindowMs(tier) - log[p].at);
            && |recent| > tier.max && 0 <= rounding < 1000
            && (tier.max >= 1 ==> (!log[q].breached <==> recent[|recent| - tier.max] - recent[0] <= rounding))
            && (tier.max == 1 ==> (!log[q].breached <==> AssessAt(log, p, tiers).retryAfter == tier.windowSeconds))
  {
    var c, tier := log[p], tiers[log[p].name];
    var recent := InWindow(log[..p], c.key, tier, c.at);
    WaitingExact(log, tiers, p, q);
    RetryAfterRange(log, tiers, p);
    OldestInWindow(log, tiers, p);
    assert Sound(log, p, tiers);
    WaitRounding(recent[0] + WindowMs(tier) - c.at);
    assert tier.max == 1 ==> recent[|recent| - tier.max] == c.at;
  }

  lemma {:induction false} WaitRounding(wait: int)
    requires wait >= 1
    ensures 0 <= Max(1, CeilDiv(wait, 1000)) * 1000 - wait < 1000
  {
    CeilDivBounds(wait, 1000);
  }

  /** Waiting the reported time is not always enough: the refused request counts too. With one request a minute,
      a request half a minute after an admitted one is told to wait 30 seconds, and is refused again when it has. */
  lemma {:induction false} RetryAfterNotSufficient(name: string, scope: string)
    requires ':' !in name
    ensures var tiers, key := map[name := SAMPLE_TIER], KeyOf(name, scope);
            var log := [Charge(1, name, key, 0, false), Charge(2, name, key, 30_000, true),
                        Charge(3, name, key, 60_000, true)];
            LegalLog(log, tiers) && AssessAt(log, 1, tiers).retryAfter == 30
  {
    var tiers, key := map[name := SAMPLE_TIER], KeyOf(name, scope);
    var a, b := Charge(1, name, key, 0, false), Charge(2, name, key, 30_000, true);
    var c := Charge(3, name, key, 60_000, true);
    assert ChargedKey(a) && ChargedKey(b) && ChargedKey(c);
    SampleWindows(a, b, SAMPLE_TIER);
    SampleVerdicts();
    LegalThree(a, b, c, tiers);
  }

  const SAMPLE_TIER := Tier(60, 1, ByIp)

  lemma SampleVerdicts()
    ensures !Assess(SAMPLE_TIER, [0], 0).breached
    ensures Assess(SAMPLE_TIER, [0, 30_000], 30_000) == TierResult(1, -1, 90, 30, true)
    ensures Assess(SAMPLE_TIER, [30_000, 60_000], 60_000).breached
  {
  }

  lemma {:induction false} LegalThree(a: Charge, b: Charge, c: Charge, tiers: map<string, Tier>)
    requires TableOk(tiers) && 0 <= a.at <= b.at <= c.at
    requires a.name in tiers && b.name in tiers && c.name in tiers && ChargedKey(a) && ChargedKey(b) && ChargedKey(c)
    requires a.breached == Assess(tiers[a.name], InWindow([], a.key, tiers[a.name], a.at), a.at).breached
    requires b.breached == Assess(tiers[b.name], InWindow([a], b.key, tiers[b.name], b.at), b.at).breached
    requires c.breached == Assess(tiers[c.name], InWindow([a] + [b], c.key, tiers[c.name], c.at), c.at).breached
    ensures LegalLog([a, b, c], tiers)
    ensures AssessAt([a, b, c], 1, tiers) == Assess(tiers[b.name], InWindow([a], b.key, tiers[b.name], b.at), b.at)
  {
    var log := [a, b, c];
    assert log[..0] == [] && log[..1] == [a] && log[..2] == [a] + [b];
    forall p | 0 <= p < |log|
      ensures Sound(log, p, tiers)
    {
      if p == 0 {
        assert log[p] == a;
      } else if p == 1 {
        assert log[p] == b;
      } else {
        assert log[p] == c;
      }
    }
  }

  lemma {:induction false} RecentOne(t: int, low: int)
    ensures Recent([t], low) == if t > low then [t] else []
  {
    assert [t][..0] == [];
  }

  lemma {:induction false} RecentTwo(s: int, t: int, low: int)
    ensures Recent([s, t], low) == (if s > low then [s] else []) + (if t > low then [t] else [])
  {
    assert [s, t] == [s] + [t];
    RecentConcat([s], [t], low);
    RecentOne(s, low);
    RecentOne(t, low);
  }

  lemma {:induction false} TimesTwo(a: Charge, b: Charge)
    requires a.key == b.key
    ensures Times([a], a.key) == [a.at] && Times([a] + [b], a.key) == [a.at, b.at]
  {
    TimesSnoc([], a, a.key);
    assert [] + [a] == [a];
    TimesSnoc([a], b, a.key);
  }

  lemma {:induction false} SampleWindows(a: Charge, b: Charge, tier: Tier)
    requires a.key == b.key && a.at == 0 && b.at == 30_000 && tier.windowSeconds == 60
    ensures InWindow([], a.key, tier, 0) == [0]
    ensures InWindow([a], a.key, tier, 30_000) == [0, 30_000]
    ensures InWindow([a] + [b], a.key, tier, 60_000) == [30_000, 60_000]
  {
    var window := WindowMs(tier);
    TimesTwo(a, b);
    RecentOne(0, 30_000 - window);
    RecentTwo(0, 30_000, 60_000 - window);
  }

  /** A key silent for a window is let through exactly when its tier allows anything at all. */
  lemma {:induction false} IdleClears(log: seq<Charge>, tiers: map<string, Tier>, q: nat)
    requires LegalLog(log, tiers) && q < |log|
    requires forall p ::
               0 <= p < q && log[p].key == log[q].key ==> log[p].at <= log[q].at - WindowMs(tiers[log[q].name])
    ensures log[q].breached <==> tiers[log[q].name].max < 1
  {
    var key, low := log[q].key, log[q].at - WindowMs(tiers[log[q].name]);
    var times := Times(log[..q], key);
    TimesCharged(log[..q], key);
    forall i | 0 <= i < |times|
      ensures times[i] <= low
    {
      assert ChargedAt(log[..q], key, times[i]);
      var p :| 0 <= p < |log[..q]| && log[..q][p].key == key && log[..q][p].at == times[i];
      assert log[p] == log[..q][p];
    }
    RecentNone(times, low);
    assert Sound(log, q, tiers);
  }
}
