/** What the scope decision promises, told in the parts of the target and the settings of the policy. */
module ScopeMeaning {
  import opened Common
  import opened Cidr
  import opened Scope

  // ---------------------------------------------------------------- matching

  /** A wildcard matches exactly the names that end in a dot and its suffix; any other pattern its own name. */
  lemma DomainMatchesMeaning(x: Texts, pattern: string, hostname: string)
    ensures
      var p, h := x.normalize(pattern), x.normalize(hostname);
      && (|p| >= 2 && p[0] == '*' && p[1] == '.' ==>
            (DomainMatches(x, pattern, hostname) <==> exists front: string :: h == front + "." + p[2..]))
      && (|p| < 2 || p[0] != '*' || p[1] != '.' ==> (DomainMatches(x, pattern, hostname) <==> h == p))
  {
    var p, h := x.normalize(pattern), x.normalize(hostname);
    assert |p| >= 2 ==> p[0] == p[..2][0] && p[1] == p[..2][1];
    if |p| >= 2 && p[0] == '*' && p[1] == '.' {
      assert p[..2] == "*.";
      var suffix := "." + p[2..];
      if DomainMatches(x, pattern, hostname) {
        var front := h[..|h| - |suffix|];
        assert h == front + h[|h| - |suffix|..] == front + "." + p[2..];
      }
      if front: string :| h == front + "." + p[2..] {
        assert h == front + suffix;
        assert h[|h| - |suffix|..] == suffix;
        assert |h| > |p[2..]|;
      }
    }
  }

  /** The text without its trailing slashes. */
  lemma {:induction false} StripSlashesMeaning(s: string)
    ensures
      var r := StripSlashes(s);
      && r <= s && (r == "" || r[|r| - 1] != '/')
      && forall i | |r| <= i < |s| :: s[i] == '/'
  {
    if s != [] && s[|s| - 1] == '/' {
      StripSlashesMeaning(s[..|s| - 1]);
    }
  }

  /**
    A path rule covers its own path and what lies below it: a path that goes on, after the rule's path
    without trailing slashes, with a slash.
  */
  lemma PathUnderMeaning(prefix: string, path: string)
    ensures PathUnder(prefix, path) <==>
      || path == prefix
      || exists n: nat ::
           && n <= |prefix| && n < |path|
           && prefix[..n] == path[..n] && path[n] == '/'
           && (n == 0 || prefix[n - 1] != '/') && (forall i | n <= i < |prefix| :: prefix[i] == '/')
  {
    StripSlashesMeaning(prefix);
    var r := StripSlashes(prefix);
    assert r == prefix[..|r|] && (r != "" ==> r[|r| - 1] == prefix[|r| - 1]);
    if StartsWith(path, r + "/") {
      assert path[..|r|] == path[..|r| + 1][..|r|] == r == prefix[..|r|];
      assert path[|r|] == path[..|r| + 1][|r|] == '/';
    }
    if n: nat :|
      && n <= |prefix| && n < |path| && prefix[..n] == path[..n] && path[n] == '/'
      && (n == 0 || prefix[n - 1] != '/') && (forall i | n <= i < |prefix| :: prefix[i] == '/')
    {
      assert !(n < |r|) && !(|r| < n);
      assert path[..n + 1] == r + "/";
    }
  }

  /** A port that is absent or zero is the scheme's own. */
  function EffectivePort(u: Url): nat {
    match u.port
    case Port(n) => if n == 0 then (if u.scheme == "https" then 443 else 80) else n
    case _ => if u.scheme == "https" then 443 else 80
  }

  /** A URL rule covers the URLs of its scheme, host and port whose path is its own or below. */
  lemma UrlRuleMeaning(x: Texts, r: Rule, t: Target)
    requires r.kind.UrlRule? && x.parse(r.value).absolute && x.parse(r.value).url.scheme != ""
    requires !x.parse(r.value).url.port.BadPort? && !t.url.port.BadPort?
    ensures
      var own, other := x.parse(r.value).url, t.url;
      && !RuleMatches(x, r, t).Raises?
      && (RuleMatches(x, r, t).Yes? <==>
            && t.absolute && own.scheme == other.scheme
            && own.hostname.Some? && other.hostname.Some? && DomainMatches(x, own.hostname.value, other.hostname.value)
            && EffectivePort(own) == EffectivePort(other)
            && PathUnder(if own.path == "" then "/" else own.path, if other.path == "" then "/" else other.path))
  {
  }

  /** A block rule covers a single address in its block, and a block of its own family inside it. */
  lemma CidrRuleMeaning(x: Texts, r: Rule, t: Target)
    requires r.kind.CidrRule?
    ensures
      var block, other := x.parse(r.value).network, t.network;
      && (block.None? || other.None? ==> RuleMatches(x, r, t).No?)
      && (block.Some? && other.Some? ==>
            var b, o := block.value, other.value;
            && (RuleMatches(x, r, t).Raises? <==> t.slash && o.family != b.family)
            && (RuleMatches(x, r, t).Yes? <==>
                  && o.family == b.family
                  && if t.slash then forall a | ValidAddress(a) && Contains(o, a) :: Contains(b, a)
                     else b.base <= o.base < b.base + NumAddresses(b)))
  {
    if x.parse(r.value).network.Some? && t.network.Some? {
      var b, o := x.parse(r.value).network.value, t.network.value;
      ContainsIsInterval(b, Address(o.family, o.base));
      if t.slash && o.family == b.family {
        SubnetIsInclusion(o, b);
      }
    }
  }

  lemma OtherRulesMeaning(x: Texts, r: Rule, t: Target)
    ensures r.kind.DomainRule? ==>
      && !RuleMatches(x, r, t).Raises?
      && (RuleMatches(x, r, t).Yes? <==> t.url.hostname.Some? && DomainMatches(x, r.value, t.url.hostname.value))
    ensures r.kind.RepositoryRule? || r.kind.CloudRule? ==>
      && !RuleMatches(x, r, t).Raises?
      && (RuleMatches(x, r, t).Yes? <==> x.glob(x.lower(t.text), x.lower(r.value)))
  {
  }

  // ---------------------------------------------------------------- the decision

  /** The settings that do not depend on rules or names: method, block size, and for a URL scheme, port and path. */
  predicate WithinLimits(x: Texts, p: Policy, t: Target, httpMethod: string) {
    && httpMethod in p.methods
    && (t.network.Some? ==> NumAddresses(t.network.value) <= p.maxCidrAddresses)
    && (t.url.scheme != "" ==>
          var path := if t.url.path == "" then "/" else t.url.path;
          && (p.requireHttps ==> t.url.scheme == "https")
          && !t.url.port.BadPort? && EffectivePort(t.url) in p.ports
          && (forall denied <- p.deniedPaths :: !x.glob(path, denied))
          && (exists allowed <- p.allowedPaths :: x.glob(path, allowed)))
  }

  /** The address lies in no excluded block, and is public unless the policy or an included block permits it. */
  predicate AddressPermitted(x: Texts, p: Policy, a: Address) {
    && (forall r <- p.excludes | r.kind.CidrRule? && x.parse(r.value).network.Some? ::
          !Contains(x.parse(r.value).network.value, a))
    && (|| x.isGlobal(a) || p.allowPrivate
        || exists r <- p.includes ::
             r.kind.CidrRule? && x.parse(r.value).network.Some? && Contains(x.parse(r.value).network.value, a))
  }

  lemma AddressDenialMeaning(x: Texts, p: Policy, a: Address)
    ensures AddressDenial(x, p, a).None? <==> AddressPermitted(x, p, a)
  {
  }

  /** What a host stands for: its own address if it is one, and otherwise what the resolver answers. */
  function AddressesOf(x: Texts, hostname: string, resolver: Resolver): Option<seq<Address>> {
    match x.literal(hostname)
    case Some(a) => Some([a])
    case None => resolver(hostname)
  }

  lemma StaticMeaning(x: Texts, p: Policy, t: Target, httpMethod: string)
    ensures StaticDenial(x, p, t, httpMethod).None? <==>
      WithinLimits(x, p, t, httpMethod) && AnyMatches(x, p.excludes, t).No? && AnyMatches(x, p.includes, t).Yes?
  {
  }

  /**
    A target is allowed exactly when it is within the policy's limits, no exclusion and some inclusion
    matches it, and, if its name is resolved, it has addresses and every one of them is permitted; the
    answer then lists the addresses looked at.
  */
  lemma AllowedExactlyWhen(x: Texts, p: Policy, t: Target, httpMethod: string, resolveDns: Option<bool>,
        resolver: Resolver)
    ensures
      var resolving := (resolveDns == Some(true) || (resolveDns.None? && p.resolveFirst)) && t.url.hostname.Some?;
      var ips := if resolving then AddressesOf(x, t.url.hostname.value, resolver) else Some([]);
      && (Authorize(x, p, t, httpMethod, resolveDns, resolver).Allow? <==>
            && WithinLimits(x, p, t, httpMethod)
            && (forall r <- p.excludes :: RuleMatches(x, r, t).No?) && AnyMatches(x, p.includes, t).Yes?
            && (resolving ==> ips.Some? && ips.value != [] && forall a <- ips.value :: AddressPermitted(x, p, a)))
      && (Authorize(x, p, t, httpMethod, resolveDns, resolver).Allow? ==>
            Some(Authorize(x, p, t, httpMethod, resolveDns, resolver).ips) == ips)
  {
    StaticMeaning(x, p, t, httpMethod);
    AnyMatchesMeaning(x, p.excludes, t);
    if t.url.hostname.Some? {
      AddressesDecide(x, p, t.url.hostname.value, resolver);
    }
  }

  lemma AddressesDecide(x: Texts, p: Policy, hostname: string, resolver: Resolver)
    ensures
      var ips, d := AddressesOf(x, hostname, resolver), ResolvedDecision(x, p, hostname, resolver);
      && (d.Allow? <==> ips.Some? && ips.value != [] && forall a <- ips.value :: AddressPermitted(x, p, a))
      && (d.Allow? ==> Some(d.ips) == ips)
      && (d == Deny(DnsFailed) <==> ips.None?)
      && (d == Deny(NoAddresses) <==> ips == Some([]))
  {
    var ips := AddressesOf(x, hostname, resolver);
    if ips.Some? {
      FirstAddressDenialMeaning(x, p, ips.value);
      AddressDenialIsAboutAddresses(x, p, ips.value);
      forall a | a in ips.value ensures AddressDenial(x, p, a).None? <==> AddressPermitted(x, p, a) {
        AddressDenialMeaning(x, p, a);
      }
    }
  }

  lemma {:induction false} AddressDenialIsAboutAddresses(x: Texts, p: Policy, ips: seq<Address>)
    ensures
      var r := FirstAddressDenial(x, p, ips);
      r.Some? ==> r.value.AddressExcluded? || r.value.AddressNotGlobal?
  {
    if ips != [] {
      AddressDenialIsAboutAddresses(x, p, ips[1..]);
    }
  }

  /** Every static refusal is about what it says. */
  lemma RefusalIsTrue(x: Texts, p: Policy, t: Target, httpMethod: string)
    ensures
      var refusal, path := StaticDenial(x, p, t, httpMethod), if t.url.path == "" then "/" else t.url.path;
      && (refusal == Some(Deny(MethodDenied)) <==> httpMethod !in p.methods)
      && (refusal == Some(Deny(Excluded)) ==> exists r <- p.excludes :: RuleMatches(x, r, t).Yes?)
      && (refusal == Some(Deny(NotIncluded)) ==> forall r <- p.includes :: RuleMatches(x, r, t).No?)
      && (refusal == Some(Deny(CidrTooLarge)) ==>
            t.network.Some? && NumAddresses(t.network.value) > p.maxCidrAddresses)
      && (refusal == Some(Deny(HttpsRequired)) ==> p.requireHttps && t.url.scheme != "" && t.url.scheme != "https")
      && (refusal == Some(Deny(PortDenied)) ==> EffectivePort(t.url) !in p.ports)
      && (refusal == Some(Deny(PathDenied)) ==> exists denied <- p.deniedPaths :: x.glob(path, denied))
      && (refusal == Some(Deny(PathNotAllowed)) ==> forall allowed <- p.allowedPaths :: !x.glob(path, allowed))
  {
    AnyMatchesMeaning(x, p.excludes, t);
    AnyMatchesMeaning(x, p.includes, t);
  }
}
