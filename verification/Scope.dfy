/** The scope decision (bbpipeline/scope.py): rule matching and authorize_target. */
module Scope {
  import opened Common
  import opened Cidr

  // ---------------------------------------------------------------- parsed text

  /** A URL's port: absent, a number, or text that raises when it is read. */
  datatype Port = NoPort | Port(number: nat) | BadPort

  datatype Url = Url(scheme: string, hostname: Option<string>, port: Port, path: string)

  /** What the library functions make of one string: "://" in it, "/" in it, ip_network and urlsplit of it. */
  datatype Target = Target(text: string, absolute: bool, slash: bool, network: Option<Block>, url: Url)

  /** The text functions the policy code calls. */
  datatype Texts = Texts(
    parse: string -> Target,
    lower: string -> string,
    normalize: string -> string,                // normalize_hostname
    glob: (string, string) -> bool,             // fnmatchcase(text, pattern)
    literal: string -> Option<Address>,         // ip_address
    isGlobal: Address -> bool)

  // ---------------------------------------------------------------- rules

  datatype RuleKind = DomainRule | UrlRule | CidrRule | RepositoryRule | CloudRule

  datatype Rule = Rule(kind: RuleKind, value: string)

  /** A test that may raise instead of answering. */
  datatype Match = Yes | No | Raises

  predicate StartsWith(s: string, prefix: string) {
    |prefix| <= |s| && s[..|prefix|] == prefix
  }

  predicate EndsWith(s: string, suffix: string) {
    |suffix| <= |s| && s[|s| - |suffix|..] == suffix
  }

  predicate DomainMatches(x: Texts, pattern: string, hostname: string) {
    var p, h := x.normalize(pattern), x.normalize(hostname);
    if StartsWith(p, "*.") then EndsWith(h, "." + p[2..]) && h != p[2..]
    else h == p
  }

  function DefaultPort(scheme: string): nat {
    if scheme == "https" then 443 else 80
  }

  /** `port or default`: zero counts as absent. */
  function PortOr(port: Port, scheme: string): nat {
    if port.Port? && port.number != 0 then port.number else DefaultPort(scheme)
  }

  function StripSlashes(s: string): string {
    if s != [] && s[|s| - 1] == '/' then StripSlashes(s[..|s| - 1]) else s
  }

  function PathOr(path: string): string {
    if path == "" then "/" else path
  }

  predicate PathUnder(prefix: string, path: string) {
    path == prefix || StartsWith(path, StripSlashes(prefix) + "/")
  }

  function UrlMatches(x: Texts, pattern: Target, target: Target): Match {
    var expected, actual := pattern.url, target.url;
    if !pattern.absolute then No
    else if expected.scheme != "" && expected.scheme != actual.scheme then No
    else if expected.hostname.None? || actual.hostname.None? then No
    else if !DomainMatches(x, expected.hostname.value, actual.hostname.value) then No
    else if expected.port.BadPort? || actual.port.BadPort? then Raises
    else if PortOr(expected.port, expected.scheme) != PortOr(actual.port, actual.scheme) then No
    else if PathUnder(PathOr(expected.path), PathOr(actual.path)) then Yes else No
  }

  predicate CoversAddress(allowed: Option<Block>, a: Address) {
    allowed.Some? && Contains(allowed.value, a)
  }

  function CidrMatches(allowed: Option<Block>, target: Target): Match {
    if allowed.None? || target.network.None? then No
    else
      var n := target.network.value;
      if !target.slash then if Contains(allowed.value, Address(n.family, n.base)) then Yes else No
      else if n.family != allowed.value.family then Raises
      else if SubnetOf(n, allowed.value) then Yes else No
  }

  function RuleMatches(x: Texts, r: Rule, t: Target): Match {
    match r.kind
    case RepositoryRule => if x.glob(x.lower(t.text), x.lower(r.value)) then Yes else No
    case CloudRule => if x.glob(x.lower(t.text), x.lower(r.value)) then Yes else No
    case CidrRule => CidrMatches(x.parse(r.value).network, t)
    case DomainRule => if t.url.hostname.Some? && DomainMatches(x, r.value, t.url.hostname.value) then Yes else No
    case UrlRule => if t.url.hostname.Some? && t.absolute then UrlMatches(x, x.parse(r.value), t) else No
  }

  /** The rules tried in order until one matches (or raises). */
  function AnyMatches(x: Texts, rules: seq<Rule>, t: Target): Match {
    if rules == [] then No
    else
      var first := RuleMatches(x, rules[0], t);
      if first.No? then AnyMatches(x, rules[1..], t) else first
  }

  // ---------------------------------------------------------------- the decision

  datatype Policy = Policy(
    includes: seq<Rule>, excludes: seq<Rule>,
    methods: seq<string>, ports: seq<nat>,
    deniedPaths: seq<string>, allowedPaths: seq<string>,
    requireHttps: bool, allowPrivate: bool, resolveFirst: bool,
    maxCidrAddresses: nat)

  datatype Reason =
    | MethodDenied | Excluded | NotIncluded | CidrTooLarge | HttpsRequired | PortDenied | PathDenied | PathNotAllowed
    | DnsFailed | NoAddresses | AddressExcluded(address: Address) | AddressNotGlobal(address: Address)

  datatype Decision = Allow(ips: seq<Address>) | Deny(reason: Reason) | RaisesError

  type Resolver = string -> Option<seq<Address>>

  predicate GlobMatchesAny(x: Texts, path: string, patterns: seq<string>) {
    exists p <- patterns :: x.glob(path, p)
  }

  /** Everything authorize_target decides before it resolves a name; None means nothing objected. */
  function StaticDenial(x: Texts, p: Policy, t: Target, httpMethod: string): Option<Decision> {
    if httpMethod !in p.methods then Some(Deny(MethodDenied))
    else
      var excluded := AnyMatches(x, p.excludes, t);
      if excluded.Raises? then Some(RaisesError)
      else if excluded.Yes? then Some(Deny(Excluded))
      else
        var included := AnyMatches(x, p.includes, t);
        if included.Raises? then Some(RaisesError)
        else if included.No? then Some(Deny(NotIncluded))
        else if t.network.Some? && NumAddresses(t.network.value) > p.maxCidrAddresses then Some(Deny(CidrTooLarge))
        else if t.url.scheme == "" then None
        else if p.requireHttps && t.url.scheme != "https" then Some(Deny(HttpsRequired))
        else if t.url.port.BadPort? then Some(RaisesError)
        else if PortOr(t.url.port, t.url.scheme) !in p.ports then Some(Deny(PortDenied))
        else if GlobMatchesAny(x, PathOr(t.url.path), p.deniedPaths) then Some(Deny(PathDenied))
        else if !GlobMatchesAny(x, PathOr(t.url.path), p.allowedPaths) then Some(Deny(PathNotAllowed))
        else None
  }

  predicate CidrRuleCovers(x: Texts, rules: seq<Rule>, a: Address) {
    exists r <- rules :: r.kind.CidrRule? && CoversAddress(x.parse(r.value).network, a)
  }

  function AddressDenial(x: Texts, p: Policy, a: Address): Option<Reason> {
    if CidrRuleCovers(x, p.excludes, a) then Some(AddressExcluded(a))
    else if !x.isGlobal(a) && !p.allowPrivate && !CidrRuleCovers(x, p.includes, a) then Some(AddressNotGlobal(a))
    else None
  }

  function FirstAddressDenial(x: Texts, p: Policy, ips: seq<Address>): Option<Reason> {
    if ips == [] then None
    else
      var first := AddressDenial(x, p, ips[0]);
      if first.Some? then first else FirstAddressDenial(x, p, ips[1..])
  }

  function ResolvedDecision(x: Texts, p: Policy, hostname: string, resolver: Resolver): Decision {
    var addresses := if x.literal(hostname).Some? then Some([x.literal(hostname).value]) else resolver(hostname);
    if addresses.None? then Deny(DnsFailed)
    else if addresses.value == [] then Deny(NoAddresses)
    else
      var denial := FirstAddressDenial(x, p, addresses.value);
      if denial.Some? then Deny(denial.value) else Allow(addresses.value)
  }

  /** resolveDns None defers to the policy's own setting. */
  function Authorize(x: Texts, p: Policy, t: Target, httpMethod: string, resolveDns: Option<bool>,
          resolver: Resolver): Decision {
    var denial := StaticDenial(x, p, t, httpMethod);
    if denial.Some? then denial.value
    else if !(if resolveDns.Some? then resolveDns.value else p.resolveFirst) || t.url.hostname.None? then Allow([])
    else ResolvedDecision(x, p, t.url.hostname.value, resolver)
  }

  // ---------------------------------------------------------------- matching a list of rules

  lemma {:induction false} AnyMatchesMeaning(x: Texts, rules: seq<Rule>, t: Target)
    ensures AnyMatches(x, rules, t).No? <==> forall r <- rules :: RuleMatches(x, r, t).No?
    ensures AnyMatches(x, rules, t).Yes? ==> exists r <- rules :: RuleMatches(x, r, t).Yes?
    ensures AnyMatches(x, rules, t).Raises? ==> exists r <- rules :: RuleMatches(x, r, t).Raises?
  {
    if rules != [] {
      AnyMatchesMeaning(x, rules[1..], t);
      assert forall r :: r in rules <==> r == rules[0] || r in rules[1..];
    }
  }

  lemma {:induction false} FirstAddressDenialMeaning(x: Texts, p: Policy, ips: seq<Address>)
    ensures FirstAddressDenial(x, p, ips).None? <==> forall a <- ips :: AddressDenial(x, p, a).None?
  {
    if ips != [] {
      FirstAddressDenialMeaning(x, p, ips[1..]);
      assert forall a :: a in ips <==> a == ips[0] || a in ips[1..];
    }
  }

  // ---------------------------------------------------------------- the policy order

  ghost predicate Subset<T>(a: seq<T>, b: seq<T>) {
    forall e <- a :: e in b
  }

  /** a is at least as strict as b in every setting. */
  ghost predicate AtLeastAsStrict(a: Policy, b: Policy) {
    && Subset(a.includes, b.includes) && Subset(b.excludes, a.excludes)
    && Subset(a.methods, b.methods) && Subset(a.ports, b.ports)
    && Subset(b.deniedPaths, a.deniedPaths) && Subset(a.allowedPaths, b.allowedPaths)
    && (b.requireHttps ==> a.requireHttps) && (a.allowPrivate ==> b.allowPrivate) && (b.resolveFirst ==> a.resolveFirst)
    && a.maxCidrAddresses <= b.maxCidrAddresses
  }

  /** The rules a target can be tested against without raising: one family per comparison, and readable rule ports. */
  ghost predicate Comparable(x: Texts, rules: seq<Rule>, t: Target) {
    forall r <- rules ::
      && (r.kind.CidrRule? && t.slash && t.network.Some? && x.parse(r.value).network.Some? ==>
            x.parse(r.value).network.value.family == t.network.value.family)
      && (r.kind.UrlRule? ==> !x.parse(r.value).url.port.BadPort? && x.parse(r.value).url.scheme != "")
  }

  lemma ComparableNeverRaises(x: Texts, rules: seq<Rule>, t: Target)
    requires Comparable(x, rules, t) && (t.url.scheme != "" ==> !t.url.port.BadPort?)
    ensures !AnyMatches(x, rules, t).Raises?
  {
    AnyMatchesMeaning(x, rules, t);
  }

  lemma StricterStatic(x: Texts, a: Policy, b: Policy, t: Target, httpMethod: string)
    requires AtLeastAsStrict(a, b) && StaticDenial(x, a, t, httpMethod).None?
    ensures StaticDenial(x, b, t, httpMethod).None? || StaticDenial(x, b, t, httpMethod) == Some(RaisesError)
    ensures Comparable(x, b.includes, t) ==> StaticDenial(x, b, t, httpMethod).None?
  {
    AnyMatchesMeaning(x, a.excludes, t);
    AnyMatchesMeaning(x, b.excludes, t);
    AnyMatchesMeaning(x, a.includes, t);
    AnyMatchesMeaning(x, b.includes, t);
    assert AnyMatches(x, b.excludes, t).No?;
    assert !AnyMatches(x, b.includes, t).No?;
    if t.url.scheme != "" {
      assert !GlobMatchesAny(x, PathOr(t.url.path), b.deniedPaths);
      assert GlobMatchesAny(x, PathOr(t.url.path), b.allowedPaths);
    }
    if Comparable(x, b.includes, t) {
      ComparableNeverRaises(x, b.includes, t);
    }
  }

  /**
    Whatever a policy allows, no more permissive policy denies; and it allows it too whenever it can
    compare it at all.
  */
  lemma StricterAllowsLess(x: Texts, a: Policy, b: Policy, t: Target, httpMethod: string, resolveDns: Option<bool>,
          resolver: Resolver)
    requires AtLeastAsStrict(a, b)
    requires Authorize(x, a, t, httpMethod, resolveDns, resolver).Allow?
    ensures !Authorize(x, b, t, httpMethod, resolveDns, resolver).Deny?
    ensures Comparable(x, b.includes, t) ==> Authorize(x, b, t, httpMethod, resolveDns, resolver).Allow?
  {
    StricterStatic(x, a, b, t, httpMethod);
    if t.url.hostname.Some? {
      StricterResolved(x, a, b, t.url.hostname.value, resolver);
    }
  }

  lemma StricterResolved(x: Texts, a: Policy, b: Policy, hostname: string, resolver: Resolver)
    requires AtLeastAsStrict(a, b)
    ensures ResolvedDecision(x, a, hostname, resolver).Allow? ==> ResolvedDecision(x, b, hostname, resolver).Allow?
  {
    var addresses := if x.literal(hostname).Some? then Some([x.literal(hostname).value]) else resolver(hostname);
    if addresses.Some? && FirstAddressDenial(x, a, addresses.value).None? {
      StricterAddresses(x, a, b, addresses.value);
    }
  }

  lemma StricterAddresses(x: Texts, a: Policy, b: Policy, ips: seq<Address>)
    requires AtLeastAsStrict(a, b) && FirstAddressDenial(x, a, ips).None?
    ensures FirstAddressDenial(x, b, ips).None?
  {
    FirstAddressDenialMeaning(x, a, ips);
    FirstAddressDenialMeaning(x, b, ips);
  }

  // ---------------------------------------------------------------- what an allow means

  /** Whether a call resolves host names: as it asks, and otherwise as the policy says. */
  predicate Resolves(p: Policy, resolveDns: Option<bool>) {
    if resolveDns.Some? then resolveDns.value else p.resolveFirst
  }

  /**
    An allow with resolution: some address, all of them outside every excluded block and public or
    expressly permitted.
  */
  lemma AllowedAddressesAreSafe(x: Texts, p: Policy, t: Target, httpMethod: string, resolveDns: Option<bool>,
          resolver: Resolver)
    requires Resolves(p, resolveDns) && t.url.hostname.Some?
    requires Authorize(x, p, t, httpMethod, resolveDns, resolver).Allow?
    ensures var ips := Authorize(x, p, t, httpMethod, resolveDns, resolver).ips;
      && ips != []
      && forall a <- ips ::
           && !CidrRuleCovers(x, p.excludes, a)
           && (x.isGlobal(a) || p.allowPrivate || CidrRuleCovers(x, p.includes, a))
  {
    FirstAddressDenialMeaning(x, p, Authorize(x, p, t, httpMethod, resolveDns, resolver).ips);
  }

  /** An allowed target matches some include rule and no exclude rule. */
  lemma AllowedMatchesScope(x: Texts, p: Policy, t: Target, httpMethod: string, resolveDns: Option<bool>,
          resolver: Resolver)
    requires Authorize(x, p, t, httpMethod, resolveDns, resolver).Allow?
    ensures forall r <- p.excludes :: RuleMatches(x, r, t).No?
    ensures exists r <- p.includes :: RuleMatches(x, r, t).Yes?
  {
    AnyMatchesMeaning(x, p.excludes, t);
    AnyMatchesMeaning(x, p.includes, t);
  }

  /**
    An allowed block can still hold excluded addresses: an exclusion only rejects targets inside it.
    It holds none of them exactly when the excluded block is not inside the target.
  */
  lemma AllowedBlockVersusExclusion(x: Texts, p: Policy, t: Target, httpMethod: string, resolveDns: Option<bool>,
          resolver: Resolver, r: Rule)
    requires Authorize(x, p, t, httpMethod, resolveDns, resolver).Allow?
    requires t.network.Some?
    requires r in p.excludes && r.kind.CidrRule? && x.parse(r.value).network.Some?
    requires x.parse(r.value).network.value.family == t.network.value.family
    ensures var target, excluded := t.network.value, x.parse(r.value).network.value;
      (forall a | ValidAddress(a) :: !(Contains(target, a) && Contains(excluded, a))) <==> !SubnetOf(excluded, target)
  {
    AllowedMatchesScope(x, p, t, httpMethod, resolveDns, resolver);
    var target, excluded := t.network.value, x.parse(r.value).network.value;
    var first := Address(target.family, target.base);
    if !t.slash {
      SingleAddress(first, excluded);
      FloorToMultiple(target.base, target.base, 1);
    }
    assert !SubnetOf(target, excluded);
    NestedOrDisjoint(target, excluded);
    if SubnetOf(excluded, target) {
      var a := Address(excluded.family, excluded.base);
      ContainsIsInterval(excluded, a);
      ContainsIsInterval(target, a);
      assert ValidAddress(a) && Contains(target, a) && Contains(excluded, a);
    }
  }

  /** The network settings that a manifest is accepted with. */
  predicate ValidPolicy(p: Policy) {
    && p.includes != []
    && p.ports != [] && (forall port <- p.ports :: 1 <= port <= 65535)
    && 1 <= p.maxCidrAddresses <= 65536
  }

  /**
    So a policy that includes a block and excludes one properly inside it, and has no other objection,
    allows the whole block, excluded addresses and all: always when names are not resolved, and with
    resolution too unless an exclusion holds the block's own address, the only one that is looked at.
  */
  lemma AllowedBlockCanHoldExcludedAddress(x: Texts, p: Policy, inText: string, outText: string, block: Block,
          hole: Block, resolveDns: Option<bool>, resolver: Resolver)
    requires ValidPolicy(p) && "GET" in p.methods
    requires Rule(CidrRule, inText) in p.includes && Rule(CidrRule, outText) in p.excludes
    requires x.parse(inText).network == Some(block) && x.parse(outText).network == Some(hole)
    requires block.family == hole.family && SubnetOf(hole, block) && !SubnetOf(block, hole)
    requires NumAddresses(block) <= p.maxCidrAddresses
    requires x.parse(inText).slash && x.parse(inText).url.scheme == ""
    requires forall r <- p.includes :: !RuleMatches(x, r, x.parse(inText)).Raises?
    requires forall r <- p.excludes | r != Rule(CidrRule, outText) :: RuleMatches(x, r, x.parse(inText)).No?
    ensures var a := Address(hole.family, hole.base);
      ValidAddress(a) && Contains(block, a) && CidrRuleCovers(x, p.excludes, a)
    ensures !Resolves(p, resolveDns) ==> Authorize(x, p, x.parse(inText), "GET", resolveDns, resolver).Allow?
    ensures
      var own, host := Address(block.family, block.base), x.parse(inText).url.hostname;
      (host.Some? ==> x.literal(host.value) == Some(own)) && !CidrRuleCovers(x, p.excludes, own)
      ==> Authorize(x, p, x.parse(inText), "GET", resolveDns, resolver).Allow?
  {
    var t, a, own := x.parse(inText), Address(hole.family, hole.base), Address(block.family, block.base);
    var inRule, outRule := Rule(CidrRule, inText), Rule(CidrRule, outText);
    ContainsIsInterval(block, a);
    ContainsIsInterval(hole, a);
    ContainsIsInterval(block, own);
    assert CoversAddress(x.parse(outRule.value).network, a);
    assert CoversAddress(x.parse(inRule.value).network, own);
    assert RuleMatches(x, inRule, t).Yes? && RuleMatches(x, outRule, t).No?;
    AnyMatchesMeaning(x, p.includes, t);
    AnyMatchesMeaning(x, p.excludes, t);
    assert StaticDenial(x, p, t, "GET").None?;
    if t.url.hostname.Some? && !CidrRuleCovers(x, p.excludes, own) {
      assert AddressDenial(x, p, own).None?;
      FirstAddressDenialMeaning(x, p, [own]);
    }
  }

  lemma SingleRule(x: Texts, r: Rule, t: Target)
    ensures AnyMatches(x, [r], t) == RuleMatches(x, r, t)
  {
    assert [r][1..] == [];
  }
}
