/**
  Scan seeds derived from the scope (bbpipeline/adapters/bbot.py) and the manifest validator that
  promises scheduled scanners will have some (bbpipeline/manifest.py).
*/
module Seeds {
  import opened Common
  import opened Cidr
  import opened Scope

  predicate IsWildcard(value: string) {
    StartsWith(value, "*.")
  }

  function StripDots(s: string): string {
    if s != [] && s[|s| - 1] == '.' then StripDots(s[..|s| - 1]) else s
  }

  predicate ApexInScope(x: Texts, includes: seq<Rule>, apex: string) {
    exists r <- includes ::
      r.kind.DomainRule? && !IsWildcard(r.value) && StripDots(x.lower(r.value)) == StripDots(x.lower(apex))
  }

  predicate Seedable(r: Rule) {
    r.kind.DomainRule? || r.kind.UrlRule? || r.kind.CidrRule?
  }

  predicate WildcardRule(r: Rule) {
    r.kind.DomainRule? && IsWildcard(r.value)
  }

  /** The seed of one rule; None for a wildcard without its apex and for rules that name no host. */
  function SeedOf(x: Texts, includes: seq<Rule>, r: Rule): Option<string> {
    if !Seedable(r) then None
    else if !WildcardRule(r) then Some(r.value)
    else if ApexInScope(x, includes, r.value[2..]) then Some(r.value[2..]) else None
  }

  function RawSeeds(x: Texts, includes: seq<Rule>, n: nat): seq<string>
    requires n <= |includes|
  {
    if n == 0 then []
    else
      var seed := SeedOf(x, includes, includes[n - 1]);
      RawSeeds(x, includes, n - 1) + if seed.Some? then [seed.value] else []
  }

  function RawWildcards(x: Texts, includes: seq<Rule>, n: nat): seq<string>
    requires n <= |includes|
  {
    if n == 0 then []
    else
      var r := includes[n - 1];
      RawWildcards(x, includes, n - 1) + if WildcardRule(r) && SeedOf(x, includes, r).None? then [r.value] else []
  }

  /** A domain rule that is no wildcard names the host, up to case and trailing dots. */
  ghost predicate InScopeByItself(x: Texts, includes: seq<Rule>, host: string) {
    exists w <- includes ::
      w.kind.DomainRule? && !("*." <= w.value) && StripDots(x.lower(w.value)) == StripDots(x.lower(host))
  }

  lemma {:induction false} StripDotsMeaning(s: string)
    ensures var r := StripDots(s); r <= s && (r == "" || r[|r| - 1] != '.') && forall i | |r| <= i < |s| :: s[i] == '.'
  {
    if s != [] && s[|s| - 1] == '.' {
      StripDotsMeaning(s[..|s| - 1]);
    }
  }

  lemma SeedsInFields(x: Texts, includes: seq<Rule>)
    ensures forall s :: (exists r <- includes :: SeedOf(x, includes, r) == Some(s)) <==>
      || (exists r <- includes ::
            r.value == s && ((r.kind.DomainRule? && !("*." <= s)) || r.kind.UrlRule? || r.kind.CidrRule?))
      || ((exists r <- includes :: r.kind.DomainRule? && "*." <= r.value && r.value[2..] == s)
          && InScopeByItself(x, includes, s))
    ensures forall s :: (exists r <- includes :: LeavesOut(x, includes, r, s)) <==>
      "*." <= s && (exists r <- includes :: r.kind.DomainRule? && r.value == s) && !InScopeByItself(x, includes, s[2..])
  {
    forall s
      ensures (exists r <- includes :: SeedOf(x, includes, r) == Some(s)) <==>
        || (exists r <- includes ::
              r.value == s && ((r.kind.DomainRule? && !("*." <= s)) || r.kind.UrlRule? || r.kind.CidrRule?))
        || ((exists r <- includes :: r.kind.DomainRule? && "*." <= r.value && r.value[2..] == s)
            && InScopeByItself(x, includes, s))
    {
      assert InScopeByItself(x, includes, s) <==> ApexInScope(x, includes, s);
      forall r | r in includes && r.value == s
        ensures (r.kind.DomainRule? && !("*." <= s)) || r.kind.UrlRule? || r.kind.CidrRule? ==>
          SeedOf(x, includes, r) == Some(s)
      {
      }
      if InScopeByItself(x, includes, s) {
        if r :| r in includes && r.kind.DomainRule? && "*." <= r.value && r.value[2..] == s {
          assert SeedOf(x, includes, r) == Some(s);
        }
      }
    }
    forall s ensures InScopeByItself(x, includes, s) <==> ApexInScope(x, includes, s) {
    }
  }

  method DefaultTargets(x: Texts, includes: seq<Rule>) returns (targets: seq<string>, wildcardOnly: seq<string>)
    ensures targets == FirstOccurrences(RawSeeds(x, includes, |includes|))
    ensures wildcardOnly == FirstOccurrences(RawWildcards(x, includes, |includes|))
    ensures NoDuplicates(targets) && NoDuplicates(wildcardOnly)
    ensures forall s :: s in targets <==>
      || (exists r <- includes ::
            r.value == s && ((r.kind.DomainRule? && !("*." <= s)) || r.kind.UrlRule? || r.kind.CidrRule?))
      || ((exists r <- includes :: r.kind.DomainRule? && "*." <= r.value && r.value[2..] == s)
          && InScopeByItself(x, includes, s))
    ensures forall s :: s in wildcardOnly <==>
      "*." <= s && (exists r <- includes :: r.kind.DomainRule? && r.value == s) && !InScopeByItself(x, includes, s[2..])
  {
    targets, wildcardOnly := [], [];
    for i := 0 to |includes|
      invariant targets == RawSeeds(x, includes, i)
      invariant wildcardOnly == RawWildcards(x, includes, i)
    {
      var r := includes[i];
      if !Seedable(r) {
        continue;
      }
      if !r.kind.DomainRule? || !IsWildcard(r.value) {
        targets := targets + [r.value];
        continue;
      }
      var apex := r.value[2..];
      if ApexInScope(x, includes, apex) {
        targets := targets + [apex];
      } else {
        wildcardOnly := wildcardOnly + [r.value];
      }
    }
    FirstOccurrencesCorrect(targets);
    FirstOccurrencesCorrect(wildcardOnly);
    forall s ensures s in targets <==> exists r <- includes :: SeedOf(x, includes, r) == Some(s)
      ensures s in wildcardOnly <==>
        exists r <- includes :: LeavesOut(x, includes, r, s)
    {
      RawSeedsMeaning(x, includes, |includes|, s);
      RawWildcardsMeaning(x, includes, |includes|, s);
    }
    SeedsInFields(x, includes);
    targets := FirstOccurrences(targets);
    wildcardOnly := FirstOccurrences(wildcardOnly);
  }

  lemma {:induction false} RawSeedsMeaning(x: Texts, includes: seq<Rule>, n: nat, s: string)
    requires n <= |includes|
    ensures s in RawSeeds(x, includes, n) <==> exists k | 0 <= k < n :: SeedOf(x, includes, includes[k]) == Some(s)
  {
    if n > 0 {
      RawSeedsMeaning(x, includes, n - 1, s);
    }
  }

  predicate LeavesOut(x: Texts, includes: seq<Rule>, r: Rule, s: string) {
    WildcardRule(r) && r.value == s && !ApexInScope(x, includes, s[2..])
  }

  lemma {:induction false} RawWildcardsMeaning(x: Texts, includes: seq<Rule>, n: nat, s: string)
    requires n <= |includes|
    ensures s in RawWildcards(x, includes, n) <==> exists k | 0 <= k < n :: LeavesOut(x, includes, includes[k], s)
  {
    if n > 0 {
      RawWildcardsMeaning(x, includes, n - 1, s);
    }
  }

  // ---------------------------------------------------------------- the schedule validator

  predicate Concrete(r: Rule) {
    || (r.kind.DomainRule? && !IsWildcard(r.value))
    || ((r.kind.UrlRule? || r.kind.CidrRule?) && '*' !in r.value)
  }

  datatype ScheduleView = ScheduleView(
    bbotEnabled: bool, nucleiEnabled: bool, scheduled: set<string>, includes: seq<Rule>)

  /** scheduled_scanners_need_concrete_targets */
  predicate SchedulesAccepted(m: ScheduleView) {
    (m.bbotEnabled && "bbot" in m.scheduled) || (m.nucleiEnabled && "nuclei" in m.scheduled)
    ==> exists r <- m.includes :: Concrete(r)
  }

  /** There is a seed exactly when some rule names a host, a URL or a block by itself. */
  lemma SeedsExistExactlyWhen(x: Texts, includes: seq<Rule>)
    ensures (exists r <- includes :: SeedOf(x, includes, r).Some?) <==>
      exists r <- includes :: (r.kind.DomainRule? && !("*." <= r.value)) || r.kind.UrlRule? || r.kind.CidrRule?
  {
  }

  /** The validator accepts exactly the manifests whose scheduled scanners, if any, have a rule to start from. */
  lemma AcceptedExactlyWhen(m: ScheduleView)
    ensures SchedulesAccepted(m) <==>
      || (!(m.bbotEnabled && "bbot" in m.scheduled) && !(m.nucleiEnabled && "nuclei" in m.scheduled))
      || exists r <- m.includes ::
           || (r.kind.DomainRule? && !("*." <= r.value))
           || ((r.kind.UrlRule? || r.kind.CidrRule?) && '*' !in r.value)
  {
  }

  /** An accepted manifest with an enabled, scheduled scanner always yields a seed. */
  lemma AcceptedScheduleHasSeeds(x: Texts, m: ScheduleView)
    requires SchedulesAccepted(m)
    requires (m.bbotEnabled && "bbot" in m.scheduled) || (m.nucleiEnabled && "nuclei" in m.scheduled)
    ensures exists r <- m.includes :: SeedOf(x, m.includes, r).Some?
  {
  }

  // ---------------------------------------------------------------- seeds are in scope

  /** What the ScopeRule validator and the text functions guarantee about a validated rule. */
  ghost predicate ValidRule(x: Texts, r: Rule) {
    match r.kind
    case DomainRule =>
      !IsWildcard(r.value) ==>
        && x.parse(r.value).url.hostname.Some?
        && x.normalize(x.parse(r.value).url.hostname.value) == x.normalize(r.value)
    case UrlRule => var t := x.parse(r.value); t.absolute && t.url.hostname.Some? && !t.url.port.BadPort?
    case CidrRule => x.parse(r.value).network.Some?
    case _ => true
  }

  /**
    A domain rule for the apex of a wildcard rule, written with other letters' case or trailing dots, is
    read like the apex.
  */
  ghost predicate NormalizesHosts(x: Texts, includes: seq<Rule>) {
    forall w <- includes, r <- includes |
      && w.kind.DomainRule? && !IsWildcard(w.value) && WildcardRule(r)
      && StripDots(x.lower(w.value)) == StripDots(x.lower(r.value[2..])) ::
      var s, t := x.parse(w.value).url.hostname, x.parse(r.value[2..]).url.hostname;
      && (s.Some? <==> t.Some?) && (s.Some? ==> x.normalize(s.value) == x.normalize(t.value))
  }

  /** Every seed is itself matched by an include rule; a wildcard's apex only by a separate rule for it. */
  lemma EverySeedIsInScope(x: Texts, includes: seq<Rule>, r: Rule, seed: string)
    requires NormalizesHosts(x, includes) && (forall q <- includes :: ValidRule(x, q))
    requires r in includes && SeedOf(x, includes, r) == Some(seed)
    ensures exists q <- includes :: RuleMatches(x, q, x.parse(seed)).Yes? && !WildcardRule(q)
  {
    var t := x.parse(seed);
    if WildcardRule(r) {
      var w :| w in includes && w.kind.DomainRule? && !IsWildcard(w.value)
        && StripDots(x.lower(w.value)) == StripDots(x.lower(seed));
      assert RuleMatches(x, w, t).Yes?;
    } else {
      match r.kind {
        case DomainRule => assert RuleMatches(x, r, t).Yes?;
        case UrlRule =>
          HostMatchesItself(x, t.url.hostname.value);
          assert RuleMatches(x, r, t).Yes?;
        case CidrRule =>
          ContainsIsInterval(t.network.value, Address(t.network.value.family, t.network.value.base));
          assert RuleMatches(x, r, t).Yes?;
        case _ => assert false;
      }
    }
  }

  lemma HostMatchesItself(x: Texts, hostname: string)
    ensures DomainMatches(x, hostname, hostname)
  {
  }
}
