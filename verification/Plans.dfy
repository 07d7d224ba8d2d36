/** Test plans (bbpipeline/plans.py): the step validator, the URL builders and compile_plan. */
module Plans {
  import opened Common
  import opened Scope

  datatype Primitive = HttpGet | HttpHead | HttpOptions | ManualRequired

  datatype TestStep = TestStep(primitive: Primitive, target: string, path: string, accountRole: Option<string>,
                               purpose: string, maxRequests: nat)

  /** urlsplit of a step target; the flags say whether the part is non-empty. */
  datatype Split = Split(scheme: string, netloc: string, hostname: Option<string>,
                         username: bool, password: bool, query: bool, fragment: bool)

  datatype Urls = Urls(split: string -> Split, join: (string, string, string) -> string)

  predicate IsHttp(u: Split) {
    (u.scheme == "http" || u.scheme == "https") && u.hostname.Some?
  }

  /** The TestStep validator. */
  predicate ValidStep(u: Urls, s: TestStep) {
    && 1 <= s.maxRequests <= 20
    && (s.primitive.ManualRequired? ||
        var parsed := u.split(s.target);
        && IsHttp(parsed)
        && !parsed.username && !parsed.password && !parsed.query && !parsed.fragment
        && StartsWith(s.path, "/")
        && '?' !in s.path && '#' !in s.path && '\r' !in s.path && '\n' !in s.path)
  }

  function AbsolutePath(path: string): string {
    if StartsWith(path, "/") then path else "/" + path
  }

  /** The URL the plan compiler checks. */
  function StepUrl(u: Urls, s: TestStep): string {
    var parsed := u.split(s.target);
    if !IsHttp(parsed) then s.target else u.join(parsed.scheme, parsed.netloc, AbsolutePath(s.path))
  }

  /** The URL the verifier requests. */
  function RequestUrl(u: Urls, s: TestStep): string {
    var parsed := u.split(s.target);
    u.join(parsed.scheme, parsed.netloc, AbsolutePath(s.path))
  }

  function MethodOf(p: Primitive): string {
    match p
    case HttpGet => "GET"
    case HttpHead => "HEAD"
    case HttpOptions => "OPTIONS"
    case ManualRequired => ""
  }

  datatype Manifest = Manifest(
    policy: Policy,
    primitives: seq<Primitive>, autoHttp: bool, allowAuthenticated: bool,
    approvedRoles: seq<string>, defaultRole: Option<string>, requiredHeader: Option<string>,
    maxRequests: nat, requestsPerSecond: real)

  /** Python truth of an optional string. */
  predicate Given(s: Option<string>) {
    s.Some? && s.value != ""
  }

  /** What manifest validation guarantees. */
  predicate ValidManifest(m: Manifest) {
    && m.requestsPerSecond > 0.0
    && m.maxRequests >= 1
    && (Given(m.defaultRole) ==> m.defaultRole.value in m.approvedRoles)
  }

  datatype PlanReason =
    | ManualStep(purpose: string) | PrimitiveNotApproved(primitive: Primitive)
    | ScopeDenial(target: string, reason: Reason)
    | RoleNotApproved(role: string) | AuthenticationDisabled | OverBudget(total: nat) | AutoHttpDisabled

  datatype CompiledPlan = CompiledPlan(automatic: bool, reasons: set<PlanReason>, steps: seq<TestStep>)

  function CompileDecision(x: Texts, u: Urls, m: Manifest, s: TestStep, resolver: Resolver): Decision {
    Authorize(x, m.policy, x.parse(StepUrl(u, s)), MethodOf(s.primitive), None, resolver)
  }

  function RoleReasons(m: Manifest, s: TestStep): set<PlanReason> {
    if !Given(s.accountRole) then {}
    else if s.accountRole.value !in m.approvedRoles then {RoleNotApproved(s.accountRole.value)}
    else if !m.allowAuthenticated then {AuthenticationDisabled} else {}
  }

  /** The objections one step raises. */
  function StepReasons(x: Texts, u: Urls, m: Manifest, s: TestStep, resolver: Resolver): set<PlanReason> {
    if s.primitive.ManualRequired? then {ManualStep(s.purpose)}
    else
      var decision := CompileDecision(x, u, m, s, resolver);
      (if s.primitive !in m.primitives then {PrimitiveNotApproved(s.primitive)} else {})
      + (if decision.Deny? then {ScopeDenial(s.target, decision.reason)} else {})
      + RoleReasons(m, s)
  }

  predicate ScopeRaises(x: Texts, u: Urls, m: Manifest, s: TestStep, resolver: Resolver) {
    !s.primitive.ManualRequired? && CompileDecision(x, u, m, s, resolver).RaisesError?
  }

  function TotalRequests(steps: seq<TestStep>): nat {
    if steps == [] then 0 else TotalRequests(steps[..|steps| - 1]) + steps[|steps| - 1].maxRequests
  }

  datatype PlanError = ScopeError

  /** The objections one step raises; None where comparing its scope raises. */
  function StepObjections(x: Texts, u: Urls, m: Manifest, s: TestStep, resolver: Resolver): Option<set<PlanReason>> {
    if ScopeRaises(x, u, m, s, resolver) then None else Some(StepReasons(x, u, m, s, resolver))
  }

  function Objections(x: Texts, u: Urls, m: Manifest, steps: seq<TestStep>,
          resolver: Resolver): Option<set<PlanReason>> {
    if steps == [] then Some({})
    else
      var before := Objections(x, u, m, steps[..|steps| - 1], resolver);
      var last := StepObjections(x, u, m, steps[|steps| - 1], resolver);
      if before.None? || last.None? then None else Some(before.value + last.value)
  }

  /**
    A plan cannot be compiled exactly when some step's scope raises; otherwise a reason counts exactly
    when some step raises it.
  */
  lemma {:induction false} ObjectionsMeaning(x: Texts, u: Urls, m: Manifest, steps: seq<TestStep>, resolver: Resolver,
          reason: PlanReason)
    ensures var all := Objections(x, u, m, steps, resolver);
      && (all.None? <==> exists s <- steps :: StepObjections(x, u, m, s, resolver).None?)
      && (all.Some? ==>
            (reason in all.value <==> exists s <- steps :: reason in StepObjections(x, u, m, s, resolver).value))
  {
    if steps != [] {
      ObjectionsMeaning(x, u, m, steps[..|steps| - 1], resolver, reason);
      assert forall s :: s in steps <==> s in steps[..|steps| - 1] || s == steps[|steps| - 1];
    }
  }

  /** Nothing objects, the requests fit the budget, and the program allows automatic HTTP. */
  predicate Automatic(x: Texts, u: Urls, m: Manifest, steps: seq<TestStep>, resolver: Resolver) {
    && (forall s <- steps :: StepObjections(x, u, m, s, resolver) == Some({}))
    && TotalRequests(steps) <= m.maxRequests && m.autoHttp
  }

  lemma {:induction false} NoObjectionsMeaning(x: Texts, u: Urls, m: Manifest, steps: seq<TestStep>, resolver: Resolver)
    ensures Objections(x, u, m, steps, resolver) == Some({}) <==>
      forall s <- steps :: StepObjections(x, u, m, s, resolver) == Some({})
  {
    if steps != [] {
      NoObjectionsMeaning(x, u, m, steps[..|steps| - 1], resolver);
      assert forall s :: s in steps <==> s in steps[..|steps| - 1] || s == steps[|steps| - 1];
    }
  }

  lemma {:induction false} RaisingPrefix(x: Texts, u: Urls, m: Manifest, steps: seq<TestStep>, resolver: Resolver,
          n: nat)
    requires n <= |steps| && Objections(x, u, m, steps[..n], resolver).None?
    ensures Objections(x, u, m, steps, resolver).None?
    decreases |steps|
  {
    if n < |steps| {
      assert steps[..|steps| - 1][..n] == steps[..n];
      RaisingPrefix(x, u, m, steps[..|steps| - 1], resolver, n);
    } else {
      assert steps[..n] == steps;
    }
  }

  /** The objections of one step, in the order the compiler makes them. */
  method CheckStep(x: Texts, u: Urls, m: Manifest, s: TestStep, resolver: Resolver)
    returns (reasons: Option<set<PlanReason>>)
    ensures reasons == StepObjections(x, u, m, s, resolver)
  {
    if s.primitive.ManualRequired? {
      return Some({ManualStep(s.purpose)});
    }
    var found: set<PlanReason> := {};
    if s.primitive !in m.primitives {
      found := found + {PrimitiveNotApproved(s.primitive)};
    }
    var decision := CompileDecision(x, u, m, s, resolver);
    if decision.RaisesError? {
      return None;
    }
    if decision.Deny? {
      found := found + {ScopeDenial(s.target, decision.reason)};
    }
    if Given(s.accountRole) {
      if s.accountRole.value !in m.approvedRoles {
        found := found + {RoleNotApproved(s.accountRole.value)};
      } else if !m.allowAuthenticated {
        found := found + {AuthenticationDisabled};
      }
    }
    assert found == StepReasons(x, u, m, s, resolver);
    return Some(found);
  }

  /**
    Fails only where a scope comparison raises; otherwise reports every objection, and the plan is
    automatic when there is none.
  */
  method CompilePlan(x: Texts, u: Urls, m: Manifest, steps: seq<TestStep>, resolver: Resolver)
    returns (r: Result<CompiledPlan, PlanError>)
    ensures r.Err? <==> Objections(x, u, m, steps, resolver).None?
    ensures r.Ok? ==>
      && r.value.steps == steps
      && r.value.reasons == Objections(x, u, m, steps, resolver).value
           + (if TotalRequests(steps) > m.maxRequests then {OverBudget(TotalRequests(steps))} else {})
           + (if !m.autoHttp then {AutoHttpDisabled} else {})
    ensures r.Ok? && r.value.automatic <==> Automatic(x, u, m, steps, resolver)
  {
    var reasons: set<PlanReason> := {};
    var total := 0;
    NoObjectionsMeaning(x, u, m, steps, resolver);
    for i := 0 to |steps|
      invariant total == TotalRequests(steps[..i])
      invariant Objections(x, u, m, steps[..i], resolver) == Some(reasons)
    {
      assert steps[..i + 1][..i] == steps[..i];
      total := total + steps[i].maxRequests;
      var found := CheckStep(x, u, m, steps[i], resolver);
      if found.None? {
        RaisingPrefix(x, u, m, steps, resolver, i + 1);
        return Err(ScopeError);
      }
      reasons := reasons + found.value;
    }
    assert steps[..|steps|] == steps;
    ghost var objections := reasons;
    if total > m.maxRequests {
      reasons := reasons + {OverBudget(total)};
    }
    if !m.autoHttp {
      reasons := reasons + {AutoHttpDisabled};
    }
    assert reasons == {} <==> objections == {} && total <= m.maxRequests && m.autoHttp;
    return Ok(CompiledPlan(reasons == {}, reasons, steps));
  }

  /** On a validated automatic step both builders join the target's scheme and host part with the step's own path. */
  lemma BuildersAgree(u: Urls, s: TestStep)
    requires ValidStep(u, s) && !s.primitive.ManualRequired?
    ensures StepUrl(u, s) == RequestUrl(u, s) == u.join(u.split(s.target).scheme, u.split(s.target).netloc, s.path)
  {
  }

  /** What one step can be reproached with: its primitive, its URL and method, its role. */
  lemma StepReasonsMeaning(x: Texts, u: Urls, m: Manifest, s: TestStep, resolver: Resolver, reason: PlanReason)
    requires ValidStep(u, s)
    ensures s.primitive.ManualRequired? ==>
      (reason in StepReasons(x, u, m, s, resolver) <==> reason == ManualStep(s.purpose))
    ensures !s.primitive.ManualRequired? ==>
      var url := u.join(u.split(s.target).scheme, u.split(s.target).netloc, s.path);
      var decision := Authorize(x, m.policy, x.parse(url), MethodOf(s.primitive), None, resolver);
      var role := if s.accountRole.Some? && s.accountRole.value != "" then s.accountRole else None;
      && (ScopeRaises(x, u, m, s, resolver) <==> decision.RaisesError?)
      && (reason in StepReasons(x, u, m, s, resolver) <==>
            || (reason == PrimitiveNotApproved(s.primitive) && s.primitive !in m.primitives)
            || (decision.Deny? && reason == ScopeDenial(s.target, decision.reason))
            || (role.Some? && role.value !in m.approvedRoles && reason == RoleNotApproved(role.value))
            || (role.Some? && role.value in m.approvedRoles && !m.allowAuthenticated
                && reason == AuthenticationDisabled))
  {
  }

  lemma MethodsOfPrimitives()
    ensures MethodOf(HttpGet) == "GET" && MethodOf(HttpHead) == "HEAD" && MethodOf(HttpOptions) == "OPTIONS"
  {
  }

  /**
    A validated plan is automatic exactly when the program allows automatic HTTP, the declared requests
    fit the budget, and every step has an approved primitive, an allowed URL, and no role or an approved
    one where authenticated checks are allowed.
  */
  lemma AutomaticExactlyWhen(x: Texts, u: Urls, m: Manifest, steps: seq<TestStep>, resolver: Resolver)
    requires forall s <- steps :: ValidStep(u, s)
    ensures Automatic(x, u, m, steps, resolver) <==>
      && m.autoHttp && TotalRequests(steps) <= m.maxRequests
      && forall s <- steps :: Unobjectionable(x, u, m, s, resolver)
  {
    forall s | s in steps
      ensures StepObjections(x, u, m, s, resolver) == Some({}) <==> Unobjectionable(x, u, m, s, resolver)
    {
      StepIsUnobjectionable(x, u, m, s, resolver);
    }
  }

  predicate Unobjectionable(x: Texts, u: Urls, m: Manifest, s: TestStep, resolver: Resolver) {
    && !s.primitive.ManualRequired? && s.primitive in m.primitives
    && Authorize(x, m.policy, x.parse(u.join(u.split(s.target).scheme, u.split(s.target).netloc, s.path)),
                 MethodOf(s.primitive), None, resolver).Allow?
    && (s.accountRole.Some? && s.accountRole.value != "" ==>
          s.accountRole.value in m.approvedRoles && m.allowAuthenticated)
  }

  lemma StepIsUnobjectionable(x: Texts, u: Urls, m: Manifest, s: TestStep, resolver: Resolver)
    requires ValidStep(u, s)
    ensures StepObjections(x, u, m, s, resolver) == Some({}) <==> Unobjectionable(x, u, m, s, resolver)
  {
    var reasons := StepReasons(x, u, m, s, resolver);
    if s.primitive.ManualRequired? {
      assert ManualStep(s.purpose) in reasons;
    } else {
      assert s.primitive !in m.primitives ==> PrimitiveNotApproved(s.primitive) in reasons;
      var decision := CompileDecision(x, u, m, s, resolver);
      assert decision.Deny? ==> ScopeDenial(s.target, decision.reason) in reasons;
      if s.accountRole.Some? && s.accountRole.value != "" {
        assert s.accountRole.value !in m.approvedRoles ==> RoleNotApproved(s.accountRole.value) in reasons;
        assert s.accountRole.value in m.approvedRoles && !m.allowAuthenticated ==> AuthenticationDisabled in reasons;
      }
    }
  }

  /** The declared requests add up over the steps. */
  lemma {:induction false} TotalRequestsAddUp(a: seq<TestStep>, b: seq<TestStep>)
    ensures TotalRequests(a + b) == TotalRequests(a) + TotalRequests(b)
    ensures |a| == 1 ==> TotalRequests(a) == a[0].maxRequests
  {
    if b == [] {
      assert a + b == a;
    } else {
      TotalRequestsAddUp(a, b[..|b| - 1]);
      assert (a + b)[..|a + b| - 1] == a + b[..|b| - 1];
    }
  }

  lemma {:induction false} StepsWithinRequests(u: Urls, steps: seq<TestStep>)
    requires forall s <- steps :: ValidStep(u, s)
    ensures |steps| <= TotalRequests(steps) <= 20 * |steps|
  {
    if steps != [] {
      StepsWithinRequests(u, steps[..|steps| - 1]);
      assert steps[|steps| - 1] in steps;
    }
  }
}
