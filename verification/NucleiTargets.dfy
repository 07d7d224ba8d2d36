/** The target list of a Nuclei run (bbpipeline/adapters/nuclei.py): expansion, filtering and authorization. */
module NucleiTargets {
  import opened Common
  import opened Cidr
  import opened Scope

  /** How an address is written; reading it back gives the one-address block of that address. */
  type Writer = Address -> string

  ghost predicate WritesAddresses(x: Texts, show: Writer) {
    forall a | ValidAddress(a) ::
      var t := x.parse(show(a));
      && !t.slash && !t.absolute
      && t.network.Some? && t.network.value.family == a.family && t.network.value.base == a.value
  }

  datatype NucleiError =
    | Disabled | WildcardOnly | NoTargets | BlockTooLarge | CountOutOfRange
    | TargetDenied(target: string, decision: Decision)

  /** The usable hosts of a block that no exclusion matches, as text. */
  function HostTargets(x: Texts, show: Writer, p: Policy, hosts: seq<Address>): seq<string> {
    if hosts == [] then []
    else
      var text := show(hosts[|hosts| - 1]);
      HostTargets(x, show, p, hosts[..|hosts| - 1])
      + if AnyMatches(x, p.excludes, x.parse(text)).Yes? then [] else [text]
  }

  function Expansion(x: Texts, show: Writer, p: Policy, target: string): seq<string> {
    var network := x.parse(target).network;
    if network.None? then [target] else HostTargets(x, show, p, Hosts(network.value))
  }

  function Expanded(x: Texts, show: Writer, p: Policy, requested: seq<string>): seq<string> {
    if requested == [] then []
    else Expanded(x, show, p, requested[..|requested| - 1]) + Expansion(x, show, p, requested[|requested| - 1])
  }

  predicate FitsCap(x: Texts, p: Policy, target: string) {
    x.parse(target).network.Some? ==> NumAddresses(x.parse(target).network.value) <= p.maxCidrAddresses
  }

  predicate Authorized(x: Texts, p: Policy, resolver: Resolver, target: string) {
    Authorize(x, p, x.parse(target), "GET", Some(true), resolver).Allow?
  }

  /** The entry at k is the first that the policy does not allow. */
  predicate FirstDeniedAt(x: Texts, p: Policy, resolver: Resolver, selected: seq<string>, target: string, k: nat)
    requires k < |selected|
  {
    && selected[k] == target && !Authorized(x, p, resolver, target)
    && forall j | 0 <= j < k :: Authorized(x, p, resolver, selected[j])
  }

  method SelectTargets(x: Texts, show: Writer, p: Policy, enabled: bool, maxTargets: nat, explicit: seq<string>,
          seeds: seq<string>, wildcardOnly: seq<string>, resolver: Resolver)
    returns (r: Result<seq<string>, NucleiError>)
    ensures var requested := if explicit != [] then explicit else seeds;
      var selected := FirstOccurrences(Expanded(x, show, p, requested));
      var fit := forall q <- requested ::
        x.parse(q).network.Some? ==> NumAddresses(x.parse(q).network.value) <= p.maxCidrAddresses;
      && (r.Ok? <==>
            && enabled && requested != [] && fit && 1 <= |selected| <= maxTargets
            && (forall s <- selected :: Authorize(x, p, x.parse(s), "GET", Some(true), resolver).Allow?))
      && (r.Ok? ==> r.value == selected)
      && (r == Err(Disabled) <==> !enabled)
      && (r == Err(WildcardOnly) <==> enabled && requested == [] && wildcardOnly != [])
      && (r == Err(NoTargets) <==> enabled && requested == [] && wildcardOnly == [])
      && (r == Err(BlockTooLarge) <==> enabled && !fit)
      && (r == Err(CountOutOfRange) <==> enabled && requested != [] && fit && !(1 <= |selected| <= maxTargets))
      && (r.Err? && r.error.TargetDenied? ==>
            exists k | 0 <= k < |selected| ::
              && selected[k] == r.error.target
              && r.error.decision == Authorize(x, p, x.parse(selected[k]), "GET", Some(true), resolver)
              && !r.error.decision.Allow?
              && forall j | 0 <= j < k :: Authorize(x, p, x.parse(selected[j]), "GET", Some(true), resolver).Allow?)
  {
    if !enabled {
      return Err(Disabled);
    }
    var requested := if explicit != [] then explicit else seeds;
    if requested == [] && wildcardOnly != [] {
      return Err(WildcardOnly);
    }
    if requested == [] {
      return Err(NoTargets);
    }
    var expanded := ExpandRequested(x, show, p, requested);
    if expanded.Err? {
      return Err(expanded.error);
    }
    var selected := FirstOccurrences(expanded.value);
    if selected == [] || |selected| > maxTargets {
      return Err(CountOutOfRange);
    }
    var denied := FirstDenied(x, p, selected, resolver);
    if denied.Some? {
      ghost var k :| 0 <= k < |selected| && FirstDeniedAt(x, p, resolver, selected, denied.value, k);
      assert forall j | 0 <= j < k :: Authorized(x, p, resolver, selected[j]);
      return Err(TargetDenied(denied.value, Authorize(x, p, x.parse(denied.value), "GET", Some(true), resolver)));
    }
    return Ok(selected);
  }

  method ExpandRequested(x: Texts, show: Writer, p: Policy, requested: seq<string>)
    returns (r: Result<seq<string>, NucleiError>)
    ensures r ==
      if forall q <- requested :: FitsCap(x, p, q) then Ok(Expanded(x, show, p, requested)) else Err(BlockTooLarge)
  {
    var selected: seq<string> := [];
    for i := 0 to |requested|
      invariant selected == Expanded(x, show, p, requested[..i])
      invariant forall k | 0 <= k < i :: FitsCap(x, p, requested[k])
    {
      assert requested[..i + 1][..i] == requested[..i];
      var network := x.parse(requested[i]).network;
      if network.None? {
        selected := selected + [requested[i]];
        continue;
      }
      if NumAddresses(network.value) > p.maxCidrAddresses {
        assert !FitsCap(x, p, requested[i]);
        return Err(BlockTooLarge);
      }
      selected := selected + HostTargets(x, show, p, Hosts(network.value));
    }
    assert requested[..|requested|] == requested;
    return Ok(selected);
  }

  /** The authorization loop: the first entry the policy does not allow. */
  method FirstDenied(x: Texts, p: Policy, selected: seq<string>, resolver: Resolver) returns (denied: Option<string>)
    ensures denied.None? <==> forall s <- selected :: Authorized(x, p, resolver, s)
    ensures denied.Some? ==>
      exists k | 0 <= k < |selected| :: FirstDeniedAt(x, p, resolver, selected, denied.value, k)
  {
    for i := 0 to |selected|
      invariant forall k | 0 <= k < i :: Authorized(x, p, resolver, selected[k])
    {
      if !Authorized(x, p, resolver, selected[i]) {
        assert FirstDeniedAt(x, p, resolver, selected, selected[i], i);
        return Some(selected[i]);
      }
    }
    return None;
  }

  lemma {:induction false} HostTargetsAre(x: Texts, show: Writer, p: Policy, hosts: seq<Address>, s: string)
    ensures s in HostTargets(x, show, p, hosts) <==>
      exists a <- hosts :: s == show(a) && !AnyMatches(x, p.excludes, x.parse(s)).Yes?
  {
    if hosts != [] {
      HostTargetsAre(x, show, p, hosts[..|hosts| - 1], s);
      assert hosts == hosts[..|hosts| - 1] + [hosts[|hosts| - 1]];
      assert forall a :: a in hosts <==> a in hosts[..|hosts| - 1] || a == hosts[|hosts| - 1];
    }
  }

  lemma {:induction false} ExpandedIs(x: Texts, show: Writer, p: Policy, requested: seq<string>, s: string)
    ensures s in Expanded(x, show, p, requested) <==> exists q <- requested :: s in Expansion(x, show, p, q)
  {
    if requested != [] {
      ExpandedIs(x, show, p, requested[..|requested| - 1], s);
      assert requested == requested[..|requested| - 1] + [requested[|requested| - 1]];
      assert forall q :: q in requested <==> q in requested[..|requested| - 1] || q == requested[|requested| - 1];
    }
  }

  /** An entry stands for the requested target q: q itself, or a usable, unexcluded host of the block q. */
  ghost predicate Stands(x: Texts, show: Writer, p: Policy, q: string, s: string) {
    var network := x.parse(q).network;
    if network.None? then s == q
    else exists a :: Usable(network.value, a) && s == show(a) && !AnyMatches(x, p.excludes, x.parse(s)).Yes?
  }

  /** The selected list: no duplicates, and exactly the entries that stand for some requested target. */
  lemma SelectionIsExact(x: Texts, show: Writer, p: Policy, requested: seq<string>, s: string)
    ensures var selected := FirstOccurrences(Expanded(x, show, p, requested));
      NoDuplicates(selected) && (s in selected <==> exists q <- requested :: Stands(x, show, p, q, s))
  {
    FirstOccurrencesCorrect(Expanded(x, show, p, requested));
    ExpandedIs(x, show, p, requested, s);
    forall q ensures s in Expansion(x, show, p, q) <==> Stands(x, show, p, q, s) {
      var network := x.parse(q).network;
      if network.Some? {
        HostTargetsAre(x, show, p, Hosts(network.value), s);
        forall a ensures a in Hosts(network.value) <==> Usable(network.value, a) {
          HostsAreTheUsableAddresses(network.value, a);
        }
      }
    }
  }

  /** A selected host lies in a requested block of at most the approved size and in no excluded block. */
  lemma SelectedHostsAvoidExclusions(x: Texts, show: Writer, p: Policy, resolver: Resolver, q: string, s: string,
          r: Rule)
    requires WritesAddresses(x, show)
    requires x.parse(q).network.Some? && FitsCap(x, p, q) && Stands(x, show, p, q, s) && Authorized(x, p, resolver, s)
    requires r in p.excludes
    ensures RuleMatches(x, r, x.parse(s)).No?
    ensures exists a ::
      && s == show(a)
      && Contains(x.parse(q).network.value, a)
      && (r.kind.CidrRule? ==> !CoversAddress(x.parse(r.value).network, a))
  {
    AllowedMatchesScope(x, p, x.parse(s), "GET", Some(true), resolver);
    var n := x.parse(q).network.value;
    var a :| Usable(n, a) && s == show(a);
    HostsAreTheUsableAddresses(n, a);
    assert x.parse(s).network.value.base == a.value;
  }
}
