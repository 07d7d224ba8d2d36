/** The deterministic HTTP verifier (bbpipeline/verifier.py): last-mile checks, budget, pacing and body capture. */
module Verifier {
  import opened Common
  import opened Cidr
  import opened Scope
  import opened Plans
  import ScopeMeaning

  type Byte = bv8

  const BODY_LIMIT := 8192

  /** A response: whether its content type asks for the body to be read, and the body as it arrives. */
  datatype Response = Response(textual: bool, chunks: seq<seq<Byte>>)

  /**
    The surroundings of one step: DNS, the header secrets (lower-cased names), the passing of time, and
    the exchange.
  */
  datatype StepWorld = StepWorld(
    resolver: Resolver,
    headers: Option<set<string>>,
    thinking: real, oversleep: real, exchange: real,
    response: Option<Response>)

  predicate TimeMovesOn(w: StepWorld) {
    w.thinking >= 0.0 && w.oversleep >= 0.0 && w.exchange >= 0.0
  }

  datatype VerifyError =
    | ManualStepReached | ScopeDenied(decision: Decision) | RoleUnapproved | StepAuthenticationDisabled
    | HeaderFileInvalid | HeaderAuthenticationDisabled | RequiredHeaderMissing | BudgetExceeded | TransportFailed

  datatype Request = Request(url: string, httpMethod: string, start: real, body: seq<Byte>)

  function LastMile(x: Texts, u: Urls, m: Manifest, s: TestStep, w: StepWorld): Decision {
    Authorize(x, m.policy, x.parse(RequestUrl(u, s)), MethodOf(s.primitive), Some(true), w.resolver)
  }

  function EffectiveRole(m: Manifest, s: TestStep): Option<string> {
    if Given(s.accountRole) then s.accountRole else m.defaultRole
  }

  /** No role needs no secret file. */
  function HeaderNames(m: Manifest, s: TestStep, w: StepWorld): Option<set<string>> {
    if Given(EffectiveRole(m, s)) then w.headers else Some({})
  }

  /** Every check between taking up a step and counting its request. */
  function PreRequest(x: Texts, u: Urls, m: Manifest, s: TestStep, w: StepWorld): Option<VerifyError> {
    if s.primitive.ManualRequired? then Some(ManualStepReached)
    else if !LastMile(x, u, m, s, w).Allow? then Some(ScopeDenied(LastMile(x, u, m, s, w)))
    else
      var role := EffectiveRole(m, s);
      if Given(role) && role.value !in m.approvedRoles then Some(RoleUnapproved)
      else if Given(s.accountRole) && !m.allowAuthenticated then Some(StepAuthenticationDisabled)
      else
        var names := HeaderNames(m, s, w);
        if names.None? then Some(HeaderFileInvalid)
        else if names.value * {"authorization", "cookie"} != {} && !m.allowAuthenticated
          then Some(HeaderAuthenticationDisabled)
        else if Given(m.requiredHeader) && x.lower(m.requiredHeader.value) !in names.value
          then Some(RequiredHeaderMissing)
        else None
  }

  /** What became of one step: the check that objected, if one did, and otherwise whether a response came. */
  datatype StepResult = StepResult(refusal: Option<VerifyError>, answered: bool)

  /** How the request loop ends from step i on. */
  function Ending(results: seq<StepResult>, budget: nat, i: nat): Result<nat, VerifyError>
    requires i <= |results|
    decreases |results| - i
  {
    if i == |results| then Ok(i)
    else if results[i].refusal.Some? then Err(results[i].refusal.value)
    else if i + 1 > budget then Err(BudgetExceeded)
    else if !results[i].answered then Err(TransportFailed)
    else Ending(results, budget, i + 1)
  }

  function StepResults(x: Texts, u: Urls, m: Manifest, steps: seq<TestStep>, ws: seq<StepWorld>): (r: seq<StepResult>)
    requires |steps| <= |ws|
    ensures |r| == |steps|
  {
    seq(|steps|, k requires 0 <= k < |steps| => StepResult(PreRequest(x, u, m, steps[k], ws[k]), ws[k].response.Some?))
  }

  function Outcome(x: Texts, u: Urls, m: Manifest, steps: seq<TestStep>, ws: seq<StepWorld>): Result<nat, VerifyError>
    requires |steps| <= |ws|
  {
    Ending(StepResults(x, u, m, steps, ws), m.maxRequests, 0)
  }

  predicate Passed(r: StepResult) {
    r.refusal.None? && r.answered
  }

  /** The loop goes through exactly when every step passes and the budget covers them all. */
  lemma {:induction false} GoesThroughExactlyWhen(results: seq<StepResult>, budget: nat, i: nat)
    requires i <= |results|
    ensures Ending(results, budget, i).Ok? <==>
      (forall k | i <= k < |results| :: Passed(results[k])) && (i < |results| ==> |results| <= budget)
    ensures Ending(results, budget, i).Ok? ==> Ending(results, budget, i).value == |results|
    decreases |results| - i
  {
    if i < |results| {
      GoesThroughExactlyWhen(results, budget, i + 1);
    }
  }

  /** Otherwise it ends at the first step that does not pass or is over the budget, with that step's failure. */
  lemma {:induction false} EndsAtTheFirstFailure(results: seq<StepResult>, budget: nat, i: nat) returns (k: nat)
    requires i <= |results| && Ending(results, budget, i).Err?
    ensures i <= k < |results| && (forall j | i <= j < k :: Passed(results[j]))
    ensures k <= if i < budget then budget else i
    ensures Ending(results, budget, i) ==
      if results[k].refusal.Some? then Err(results[k].refusal.value)
      else if k + 1 > budget then Err(BudgetExceeded)
      else Err(TransportFailed)
    ensures !Passed(results[k]) || k + 1 > budget
    decreases |results| - i
  {
    if results[i].refusal.Some? || i + 1 > budget || !results[i].answered {
      k := i;
    } else {
      k := EndsAtTheFirstFailure(results, budget, i + 1);
    }
  }

  // ---------------------------------------------------------------- reading a body

  function Flatten(chunks: seq<seq<Byte>>): seq<Byte> {
    if chunks == [] then [] else Flatten(chunks[..|chunks| - 1]) + chunks[|chunks| - 1]
  }

  function FirstBytes(body: seq<Byte>): seq<Byte> {
    if |body| <= BODY_LIMIT then body else body[..BODY_LIMIT]
  }

  /** Exactly the first 8192 bytes of the response, or all of it when it is shorter. */
  method CollectBody(chunks: seq<seq<Byte>>) returns (body: seq<Byte>)
    ensures body == FirstBytes(Flatten(chunks))
    ensures body <= Flatten(chunks) && |body| == if |Flatten(chunks)| < 8192 then |Flatten(chunks)| else 8192
  {
    body := [];
    var collected := 0;
    for i := 0 to |chunks|
      invariant collected == |body| < BODY_LIMIT
      invariant body == Flatten(chunks[..i])
    {
      var remaining := BODY_LIMIT - collected;
      assert chunks[..i + 1][..i] == chunks[..i];
      FlattenGrows(chunks, i + 1);
      var taken := if |chunks[i]| <= remaining then chunks[i] else chunks[i][..remaining];
      body := body + taken;
      collected := collected + |taken|;
      if collected >= BODY_LIMIT {
        assert Flatten(chunks[..i + 1])[..BODY_LIMIT] == body;
        return;
      }
    }
    assert chunks[..|chunks|] == chunks;
  }

  lemma {:induction false} FlattenGrows(chunks: seq<seq<Byte>>, n: nat)
    requires n <= |chunks|
    ensures Flatten(chunks[..n]) <= Flatten(chunks)
    decreases |chunks|
  {
    if n < |chunks| {
      assert chunks[..|chunks| - 1][..n] == chunks[..n];
      FlattenGrows(chunks[..|chunks| - 1], n);
    } else {
      assert chunks[..n] == chunks;
    }
  }

  /** Flattening runs the chunks together in order. */
  lemma {:induction false} FlattenConcatenates(a: seq<seq<Byte>>, b: seq<seq<Byte>>)
    ensures Flatten(a + b) == Flatten(a) + Flatten(b)
    ensures |a| == 1 ==> Flatten(a) == a[0]
  {
    if b == [] {
      assert a + b == a;
    } else {
      FlattenConcatenates(a, b[..|b| - 1]);
      assert (a + b)[..|a + b| - 1] == a + b[..|b| - 1];
    }
  }

  // ---------------------------------------------------------------- the request loop

  function MinimumInterval(m: Manifest): real
    requires ValidManifest(m)
  {
    1.0 / m.requestsPerSecond
  }

  /** Every request starts at least the interval after the one before it. */
  ghost predicate Paced(sent: seq<Request>, interval: real) {
    forall k | 1 <= k < |sent| :: sent[k].start - sent[k - 1].start >= interval
  }

  /** Each request is the one its step calls for, was allowed when it was about to be sent, and kept the right bytes. */
  ghost predicate RequestIsDue(x: Texts, u: Urls, m: Manifest, s: TestStep, w: StepWorld, r: Request) {
    && r.url == RequestUrl(u, s) && r.httpMethod == MethodOf(s.primitive)
    && PreRequest(x, u, m, s, w).None?
    && r.body == if w.response.Some? && w.response.value.textual && r.httpMethod != "HEAD"
                 then FirstBytes(Flatten(w.response.value.chunks)) else []
  }

  /** Wait out the approved interval since the last response, send, and read the body. */
  method SendRequest(x: Texts, u: Urls, m: Manifest, s: TestStep, w: StepWorld, now: real, lastRequestAt: Option<real>,
          interval: real)
    returns (r: Request, now': real)
    requires PreRequest(x, u, m, s, w).None? && TimeMovesOn(w)
    requires lastRequestAt.Some? ==> lastRequestAt.value <= now
    ensures RequestIsDue(x, u, m, s, w, r)
    ensures now <= r.start <= now'
    ensures lastRequestAt.Some? ==> r.start - lastRequestAt.value >= interval
  {
    now' := now + w.thinking;
    if lastRequestAt.Some? {
      var remaining := interval - (now' - lastRequestAt.value);
      if remaining > 0.0 {
        now' := now' + remaining + w.oversleep;
      }
    }
    var body := [];
    if w.response.Some? && w.response.value.textual && MethodOf(s.primitive) != "HEAD" {
      body := CollectBody(w.response.value.chunks);
    }
    r := Request(RequestUrl(u, s), MethodOf(s.primitive), now', body);
    now' := now' + w.exchange;
  }

  /** The requests sent for the first steps: each one due, and each at least the interval after the one before it. */
  ghost predicate Journal(x: Texts, u: Urls, m: Manifest, steps: seq<TestStep>, ws: seq<StepWorld>, sent: seq<Request>,
          interval: real) {
    |sent| <= |steps| <= |ws| &&
    (sent == [] ||
     var n := |sent| - 1;
     && Journal(x, u, m, steps, ws, sent[..n], interval)
     && RequestIsDue(x, u, m, steps[n], ws[n], sent[n])
     && (n > 0 ==> sent[n].start - sent[n - 1].start >= interval))
  }

  /** What a journal says about the request at k. */
  lemma {:induction false} JournalMeaning(x: Texts, u: Urls, m: Manifest, steps: seq<TestStep>, ws: seq<StepWorld>,
          sent: seq<Request>, interval: real, k: nat)
    requires Journal(x, u, m, steps, ws, sent, interval) && k < |sent|
    ensures RequestIsDue(x, u, m, steps[k], ws[k], sent[k])
    ensures k > 0 ==> sent[k].start - sent[k - 1].start >= interval
    decreases |sent|
  {
    if k < |sent| - 1 {
      JournalMeaning(x, u, m, steps, ws, sent[..|sent| - 1], interval, k);
    }
  }

  lemma JournalIsPaced(x: Texts, u: Urls, m: Manifest, steps: seq<TestStep>, ws: seq<StepWorld>, sent: seq<Request>,
          interval: real)
    requires Journal(x, u, m, steps, ws, sent, interval)
    ensures Paced(sent, interval)
  {
    forall k | 1 <= k < |sent| ensures sent[k].start - sent[k - 1].start >= interval {
      JournalMeaning(x, u, m, steps, ws, sent, interval, k);
    }
  }

  method VerifyHttpPlan(x: Texts, u: Urls, m: Manifest, steps: seq<TestStep>, ws: seq<StepWorld>, now0: real)
    returns (outcome: Result<nat, VerifyError>, sent: seq<Request>)
    requires ValidManifest(m) && |steps| <= |ws| && forall k | 0 <= k < |ws| :: TimeMovesOn(ws[k])
    ensures outcome == Outcome(x, u, m, steps, ws)
    ensures Journal(x, u, m, steps, ws, sent, MinimumInterval(m)) && |sent| <= m.maxRequests
    ensures outcome.Ok? ==> outcome.value == |sent| == |steps|
  {
    sent := [];
    var requestCount := 0;
    var now := now0;
    var lastRequestAt: Option<real> := None;
    var interval := MinimumInterval(m);
    ghost var results := StepResults(x, u, m, steps, ws);
    for i := 0 to |steps|
      invariant requestCount == |sent| == i <= m.maxRequests
      invariant Outcome(x, u, m, steps, ws) == Ending(results, m.maxRequests, i)
      invariant lastRequestAt.Some? <==> i > 0
      invariant lastRequestAt.Some? ==> sent[i - 1].start <= lastRequestAt.value <= now
      invariant Journal(x, u, m, steps, ws, sent, interval)
    {
      var refusal := PreRequest(x, u, m, steps[i], ws[i]);
      if refusal.Some? {
        return Err(refusal.value), sent;
      }
      requestCount := requestCount + 1;
      if requestCount > m.maxRequests {
        return Err(BudgetExceeded), sent;
      }
      var request;
      request, now := SendRequest(x, u, m, steps[i], ws[i], now, lastRequestAt, interval);
      assert (sent + [request])[..i] == sent;
      sent := sent + [request];
      if ws[i].response.None? {
        return Err(TransportFailed), sent;
      }
      lastRequestAt := Some(now);
    }
    outcome := Ok(requestCount);
  }

  /** The request of a step, in the step's own parts: its target's scheme and host, its path and its method. */
  lemma RequestOfAStep(x: Texts, u: Urls, m: Manifest, s: TestStep, w: StepWorld, r: Request)
    requires ValidStep(u, s) && RequestIsDue(x, u, m, s, w, r)
    ensures r.url == u.join(u.split(s.target).scheme, u.split(s.target).netloc, s.path)
    ensures r.httpMethod ==
      match s.primitive
      case HttpGet => "GET"
      case HttpHead => "HEAD"
      case HttpOptions => "OPTIONS"
      case ManualRequired => r.httpMethod
    ensures !s.primitive.ManualRequired?
    ensures r.body != [] ==> !s.primitive.HttpHead? && w.response.Some? && w.response.value.textual
    ensures !s.primitive.HttpHead? && w.response.Some? && w.response.value.textual ==>
      var all := Flatten(w.response.value.chunks);
      r.body <= all && |r.body| == if |all| < 8192 then |all| else 8192
  {
  }

  /**
    A URL joined from a scheme, a host part and a plain absolute path splits into them again. Tabs are
    left aside: urlsplit drops them.
  */
  ghost predicate JoinReadsBack(x: Texts, u: Urls) {
    forall target: string, path: string | IsHttp(u.split(target)) && path != "" && path[0] == '/'
                                          && '?' !in path && '#' !in path && '\r' !in path && '\n' !in path ::
      var parts, url := u.split(target), x.parse(u.join(u.split(target).scheme, u.split(target).netloc, path)).url;
      && url.scheme == parts.scheme && url.hostname == parts.hostname
      && ('\t' !in path ==> url.path == path)
  }

  /** Every request of a validated step reads back as the step says: scheme, host and path. */
  lemma RequestReadsBack(x: Texts, u: Urls, m: Manifest, s: TestStep, w: StepWorld, r: Request)
    requires JoinReadsBack(x, u) && ValidStep(u, s) && RequestIsDue(x, u, m, s, w, r)
    ensures x.parse(r.url).url.scheme == u.split(s.target).scheme
    ensures x.parse(r.url).url.hostname == u.split(s.target).hostname && x.parse(r.url).url.hostname.Some?
    ensures '\t' !in s.path ==> x.parse(r.url).url.path == s.path
  {
    RequestOfAStep(x, u, m, s, w, r);
    assert s.path[..1] == "/";
    assert s.path != "" && s.path[0] == s.path[..1][0] == '/';
  }

  /**
    No request leaves without having been authorized, on freshly resolved addresses, right before it:
    its method and URL are within the policy's limits, no exclusion and some inclusion matches it, and
    its host has addresses, every one of them permitted.
  */
  lemma SentRequestsWereAuthorized(x: Texts, u: Urls, m: Manifest, s: TestStep, w: StepWorld, r: Request)
    requires JoinReadsBack(x, u) && ValidStep(u, s) && RequestIsDue(x, u, m, s, w, r)
    ensures ScopeMeaning.WithinLimits(x, m.policy, x.parse(r.url), r.httpMethod)
    ensures forall q <- m.policy.excludes :: RuleMatches(x, q, x.parse(r.url)).No?
    ensures exists q <- m.policy.includes :: RuleMatches(x, q, x.parse(r.url)).Yes?
    ensures x.parse(r.url).url.hostname.Some?
    ensures
      var ips := ScopeMeaning.AddressesOf(x, x.parse(r.url).url.hostname.value, w.resolver);
      ips.Some? && ips.value != [] && forall a <- ips.value :: ScopeMeaning.AddressPermitted(x, m.policy, a)
    ensures r.httpMethod in ["GET", "HEAD", "OPTIONS"]
  {
    RequestReadsBack(x, u, m, s, w, r);
    ScopeMeaning.AllowedExactlyWhen(x, m.policy, x.parse(r.url), r.httpMethod, Some(true), w.resolver);
    AnyMatchesMeaning(x, m.policy.includes, x.parse(r.url));
  }

  /** A step is sent on exactly when none of the checks of the request loop objects to it. */
  lemma ClearedExactlyWhen(x: Texts, u: Urls, m: Manifest, s: TestStep, w: StepWorld)
    requires ValidStep(u, s)
    ensures
      var role := if s.accountRole.Some? && s.accountRole.value != "" then s.accountRole else m.defaultRole;
      var names := if role.Some? && role.value != "" then w.headers else Some({});
      PreRequest(x, u, m, s, w).None? <==>
        && !s.primitive.ManualRequired?
        && Authorize(x, m.policy, x.parse(u.join(u.split(s.target).scheme, u.split(s.target).netloc, s.path)),
                     MethodOf(s.primitive), Some(true), w.resolver).Allow?
        && (role.Some? && role.value != "" ==> role.value in m.approvedRoles)
        && (s.accountRole.Some? && s.accountRole.value != "" ==> m.allowAuthenticated)
        && names.Some?
        && ("authorization" in names.value || "cookie" in names.value ==> m.allowAuthenticated)
        && (m.requiredHeader.Some? && m.requiredHeader.value != "" ==> x.lower(m.requiredHeader.value) in names.value)
  {
    var role := if s.accountRole.Some? && s.accountRole.value != "" then s.accountRole else m.defaultRole;
    var names := if role.Some? && role.value != "" then w.headers else Some({});
    if names.Some? {
      var secret := names.value * {"authorization", "cookie"};
      if h :| h in secret {
        assert h == "authorization" || h == "cookie";
      }
      assert "authorization" in names.value ==> "authorization" in secret;
      assert "cookie" in names.value ==> "cookie" in secret;
    }
  }

  // ---------------------------------------------------------------- the rate

  /** n intervals, added up. */
  function Intervals(n: nat, interval: real): real {
    if n == 0 then 0.0 else Intervals(n - 1, interval) + interval
  }

  lemma {:induction false} IntervalsAreProducts(n: nat, interval: real)
    ensures Intervals(n, interval) == n as real * interval
  {
    if n > 0 {
      IntervalsAreProducts(n - 1, interval);
      assert n as real * interval == (n - 1) as real * interval + interval;
    }
  }

  lemma {:induction false} PacedIsCumulative(sent: seq<Request>, interval: real, i: nat, j: nat)
    requires interval >= 0.0 && Paced(sent, interval) && i <= j < |sent|
    ensures sent[j].start - sent[i].start >= Intervals(j - i, interval)
    ensures i < j ==> sent[j].start - sent[i].start >= interval
    decreases j
  {
    if i < j {
      PacedIsCumulative(sent, interval, i, j - 1);
    }
  }

  /** Requests i and j start at least (j - i) / rate apart. */
  lemma RequestsAreSpaced(sent: seq<Request>, rate: real, i: nat, j: nat)
    requires rate > 0.0 && Paced(sent, 1.0 / rate) && i <= j < |sent|
    ensures sent[j].start - sent[i].start >= (j - i) as real / rate
  {
    PacedIsCumulative(sent, 1.0 / rate, i, j);
    IntervalsAreProducts(j - i, 1.0 / rate);
    Quotient((j - i) as real, rate, 0.0);
  }

  lemma Quotient(c: real, rate: real, length: real)
    requires rate > 0.0
    ensures c * (1.0 / rate) == c / rate
    ensures c / rate <= length ==> c <= length * rate
  {
  }

  function StartsWithin(sent: seq<Request>, from: real, length: real): nat {
    if sent == [] then 0
    else
      var last := sent[|sent| - 1];
      StartsWithin(sent[..|sent| - 1], from, length) + if from <= last.start <= from + length then 1 else 0
  }

  lemma {:induction false} StartsPushLater(sent: seq<Request>, interval: real, from: real, length: real, n: nat, k: nat)
    requires interval >= 0.0 && Paced(sent, interval) && n <= k < |sent| && sent[k].start >= from
    ensures sent[k].start >= from + Intervals(StartsWithin(sent[..n], from, length), interval)
    decreases n
  {
    if n > 0 {
      assert sent[..n][..n - 1] == sent[..n - 1];
      if from <= sent[n - 1].start <= from + length {
        StartsPushLater(sent, interval, from, length, n - 1, n - 1);
        PacedIsCumulative(sent, interval, n - 1, k);
      } else {
        StartsPushLater(sent, interval, from, length, n - 1, k);
      }
    }
  }

  lemma CountFitsWindow(c: nat, rate: real, from: real, length: real, start: real)
    requires rate > 0.0 && from + Intervals(c, 1.0 / rate) <= start <= from + length
    ensures c as real <= length * rate
  {
    IntervalsAreProducts(c, 1.0 / rate);
    Quotient(c as real, rate, length);
  }

  /** Any window of the given length holds at most 1 + length * rate request starts. */
  lemma {:induction false} WindowBound(sent: seq<Request>, rate: real, from: real, length: real)
    requires rate > 0.0 && length >= 0.0 && Paced(sent, 1.0 / rate)
    ensures StartsWithin(sent, from, length) as real <= 1.0 + length * rate
  {
    if sent == [] {
      assert length * rate >= 0.0;
    } else {
      var n := |sent| - 1;
      if from <= sent[n].start <= from + length {
        StartsPushLater(sent, 1.0 / rate, from, length, n, n);
        CountFitsWindow(StartsWithin(sent[..n], from, length), rate, from, length, sent[n].start);
      } else {
        WindowBound(sent[..n], rate, from, length);
      }
    }
  }

  /** Starts i and j are (j - i) / rate apart, and any window holds at most 1 + length * rate starts. */
  ghost predicate KeepsRate(sent: seq<Request>, rate: real)
    requires rate > 0.0
  {
    && (forall i, j | 0 <= i <= j < |sent| :: sent[j].start - sent[i].start >= (j - i) as real / rate)
    && (forall from: real, length: real | length >= 0.0 ::
          |StartsIn(sent, from, length)| as real <= 1.0 + length * rate)
  }

  /** The pace of a plan: its request starts keep the manifest's rate between any two and in any window. */
  lemma PlanKeepsTheRate(x: Texts, u: Urls, m: Manifest, steps: seq<TestStep>, ws: seq<StepWorld>, sent: seq<Request>)
    requires ValidManifest(m) && Journal(x, u, m, steps, ws, sent, MinimumInterval(m))
    ensures KeepsRate(sent, m.requestsPerSecond)
  {
    JournalIsPaced(x, u, m, steps, ws, sent, MinimumInterval(m));
    PacedKeepsRate(sent, m.requestsPerSecond);
  }

  lemma PacedKeepsRate(sent: seq<Request>, rate: real)
    requires rate > 0.0 && Paced(sent, 1.0 / rate)
    ensures KeepsRate(sent, rate)
  {
    forall i, j | 0 <= i <= j < |sent| ensures sent[j].start - sent[i].start >= (j - i) as real / rate {
      RequestsAreSpaced(sent, rate, i, j);
    }
    forall from: real, length: real | length >= 0.0
      ensures |StartsIn(sent, from, length)| as real <= 1.0 + length * rate
    {
      WindowBound(sent, rate, from, length);
      StartsWithinCounts(sent, from, length);
    }
  }

  /** The requests that start in the window. */
  function StartsIn(sent: seq<Request>, from: real, length: real): set<nat> {
    set k: nat | k < |sent| && from <= sent[k].start <= from + length
  }

  lemma OneMoreStart(sent: seq<Request>, from: real, length: real)
    requires sent != []
    ensures
      var n := |sent| - 1;
      && n !in StartsIn(sent[..n], from, length)
      && StartsIn(sent, from, length) ==
         StartsIn(sent[..n], from, length) + if from <= sent[n].start <= from + length then {n} else {}
  {
  }

  lemma {:induction false} StartsWithinCounts(sent: seq<Request>, from: real, length: real)
    ensures StartsWithin(sent, from, length) == |StartsIn(sent, from, length)|
  {
    if sent == [] {
      assert StartsIn(sent, from, length) == {};
    } else {
      StartsWithinCounts(sent[..|sent| - 1], from, length);
      OneMoreStart(sent, from, length);
    }
  }

  // ---------------------------------------------------------------- compile_plan refines the verifier

  /** Answers that depend on DNS at the time of the request, and on nothing the compiler could have seen. */
  predicate IsDnsDenial(d: Decision) {
    d.Deny? && (d.reason.DnsFailed? || d.reason.NoAddresses? || d.reason.AddressExcluded? || d.reason.AddressNotGlobal?)
  }

  lemma {:induction false} AddressDenialIsDns(x: Texts, p: Policy, ips: seq<Address>)
    ensures var r := FirstAddressDenial(x, p, ips); r.Some? ==> r.value.AddressExcluded? || r.value.AddressNotGlobal?
  {
    if ips != [] {
      AddressDenialIsDns(x, p, ips[1..]);
    }
  }

  /** Once nothing static objects, only DNS can deny. */
  lemma OnlyDnsIsLeft(x: Texts, p: Policy, t: Target, httpMethod: string, resolveDns: Option<bool>, resolver: Resolver)
    requires StaticDenial(x, p, t, httpMethod).None?
    ensures var d := Authorize(x, p, t, httpMethod, resolveDns, resolver); d.Allow? || IsDnsDenial(d)
  {
    if t.url.hostname.Some? {
      var h := t.url.hostname.value;
      var addresses := if x.literal(h).Some? then Some([x.literal(h).value]) else resolver(h);
      if addresses.Some? {
        AddressDenialIsDns(x, p, addresses.value);
      }
    }
  }

  /** Two calls of authorize_target that differ only in DNS agree on everything static. */
  lemma StaticPartIsShared(x: Texts, p: Policy, t: Target, httpMethod: string, resolveDns: Option<bool>,
          resolver: Resolver)
    ensures Authorize(x, p, t, httpMethod, resolveDns, resolver).Allow? ==> StaticDenial(x, p, t, httpMethod).None?
  {
  }

  lemma AutomaticStepIsAccepted(x: Texts, u: Urls, m: Manifest, s: TestStep, resolver: Resolver, w: StepWorld)
    requires ValidManifest(m) && ValidStep(u, s)
    requires StepReasons(x, u, m, s, resolver) == {} && !ScopeRaises(x, u, m, s, resolver)
    ensures !s.primitive.ManualRequired?
    ensures var e := PreRequest(x, u, m, s, w);
      e.Some? ==> Unforeseeable(e.value)
  {
    ObjectionsAreReasons(x, u, m, s, resolver);
    BuildersAgree(u, s);
    StaticPartIsShared(x, m.policy, x.parse(RequestUrl(u, s)), MethodOf(s.primitive), None, resolver);
    OnlyDnsIsLeft(x, m.policy, x.parse(RequestUrl(u, s)), MethodOf(s.primitive), Some(true), w.resolver);
  }

  lemma ObjectionsAreReasons(x: Texts, u: Urls, m: Manifest, s: TestStep, resolver: Resolver)
    ensures s.primitive.ManualRequired? ==> StepReasons(x, u, m, s, resolver) != {}
    ensures !s.primitive.ManualRequired? && CompileDecision(x, u, m, s, resolver).Deny? ==>
      StepReasons(x, u, m, s, resolver) != {}
    ensures
      && !s.primitive.ManualRequired? && Given(s.accountRole)
      && (s.accountRole.value !in m.approvedRoles || !m.allowAuthenticated)
      ==> StepReasons(x, u, m, s, resolver) != {}
  {
  }

  /** How an automatic plan can still end early. */
  predicate Unforeseeable(e: VerifyError) {
    || (e.ScopeDenied? && IsDnsDenial(e.decision))
    || e.HeaderFileInvalid? || e.HeaderAuthenticationDisabled? || e.RequiredHeaderMissing? || e.TransportFailed?
  }

  /**
    A plan the compiler made automatic is never refused by the verifier for being manual, out of
    scope, under a wrong role, authenticated or over budget: a scope denial can only be a DNS one.
  */
  lemma AutomaticPlanIsNeverRefused(x: Texts, u: Urls, m: Manifest, steps: seq<TestStep>, resolver: Resolver,
        ws: seq<StepWorld>)
    requires ValidManifest(m) && (forall s <- steps :: ValidStep(u, s))
    requires Automatic(x, u, m, steps, resolver) && |steps| <= |ws|
    ensures Outcome(x, u, m, steps, ws).Err? ==> Unforeseeable(Outcome(x, u, m, steps, ws).error)
  {
    var results := StepResults(x, u, m, steps, ws);
    if Ending(results, m.maxRequests, 0).Err? {
      var k := EndsAtTheFirstFailure(results, m.maxRequests, 0);
      StepsWithinRequests(u, steps);
      assert steps[k] in steps;
      AutomaticStepIsAccepted(x, u, m, steps[k], resolver, ws[k]);
    }
  }

  /** And while DNS keeps every step authorized there is no scope denial of any kind. */
  lemma AuthorizedStepsAreNotDenied(x: Texts, u: Urls, m: Manifest, steps: seq<TestStep>, ws: seq<StepWorld>)
    requires |steps| <= |ws|
    requires forall k | 0 <= k < |steps| :: LastMile(x, u, m, steps[k], ws[k]).Allow?
    ensures Outcome(x, u, m, steps, ws).Err? ==> !Outcome(x, u, m, steps, ws).error.ScopeDenied?
  {
    var results := StepResults(x, u, m, steps, ws);
    if Ending(results, m.maxRequests, 0).Err? {
      var k := EndsAtTheFirstFailure(results, m.maxRequests, 0);
      assert LastMile(x, u, m, steps[k], ws[k]).Allow?;
    }
  }
}
