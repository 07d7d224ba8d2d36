/**
  Reading a platform's scope and drafting a manifest from it: normalize_snapshot and
  build_candidate_manifest (bbpipeline/platform_sources.py).
*/
module Candidates {
  import opened Common
  import opened Scope
  import ApprovalGate
  import ConfigFiles
  import GateRuns
  import Seeds

  // ---------------------------------------------------------------- assets, rules and keys

  datatype Asset = Asset(target: string, category: string, description: string, inScope: bool)

  datatype Snapshot = Snapshot(name: string, policyUrl: string, revisionHash: string, assets: seq<Asset>)

  /** _normalize_one, and str.lower. */
  datatype Reader = Reader(normalize: Asset -> Option<Rule>, lower: string -> string)

  type Key = (string, string)

  type Table = map<Key, Rule>

  function TypeName(kind: RuleKind): string {
    match kind
    case DomainRule => "domain"
    case UrlRule => "url"
    case CidrRule => "cidr"
    case RepositoryRule => "repository"
    case CloudRule => "cloud"
  }

  function KeyOf(lower: string -> string, r: Rule): Key {
    (TypeName(r.kind), lower(r.value))
  }

  /** Two rules share a key exactly when they are of one type and their values differ at most in case. */
  lemma KeysAgreeExactlyWhen(lower: string -> string, a: Rule, b: Rule)
    ensures KeyOf(lower, a) == KeyOf(lower, b) <==> a.kind == b.kind && lower(a.value) == lower(b.value)
  {
    assert TypeName(a.kind)[0] == 'd' <==> a.kind.DomainRule?;
    assert TypeName(b.kind)[0] == 'd' <==> b.kind.DomainRule?;
    assert |TypeName(a.kind)| == 4 <==> a.kind.CidrRule?;
    assert |TypeName(b.kind)| == 4 <==> b.kind.CidrRule?;
  }

  predicate KeyLess(a: Key, b: Key) {
    StrLess(a.0, b.0) || (a.0 == b.0 && StrLess(a.1, b.1))
  }

  lemma KeyLessIsStrictOrder()
    ensures StrictOrder(KeyLess)
  {
    StrLessIsStrictOrder();
    forall a: Key, b: Key ensures !KeyLess(a, a) && (KeyLess(a, b) || a == b || KeyLess(b, a)) {
      assert StrLess(a.0, b.0) || a.0 == b.0 || StrLess(b.0, a.0);
      assert StrLess(a.1, b.1) || a.1 == b.1 || StrLess(b.1, a.1);
    }
    forall a: Key, b: Key, c: Key | KeyLess(a, b) && KeyLess(b, c) ensures KeyLess(a, c) {
    }
  }

  /** rules lists the entries of a table, one per key, in strictly ascending key order. */
  ghost predicate Listing(lower: string -> string, rules: seq<Rule>, table: Table) {
    && (forall i, j | 0 <= i < j < |rules| :: KeyLess(KeyOf(lower, rules[i]), KeyOf(lower, rules[j])))
    && (forall r <- rules :: KeyOf(lower, r) in table && table[KeyOf(lower, r)] == r)
    && (forall k <- table :: table[k] in rules)
  }

  ghost predicate Keyed(lower: string -> string, table: Table) {
    forall k <- table :: KeyOf(lower, table[k]) == k
  }

  /** `sorted(table)` */
  method SortedKeys(table: Table) returns (keys: seq<Key>)
    ensures forall i, j | 0 <= i < j < |keys| :: KeyLess(keys[i], keys[j])
    ensures forall k :: k in keys <==> k in table
  {
    KeyLessIsStrictOrder();
    keys := SortedSet(table.Keys, KeyLess);
  }

  /** `[table[key] for key in sorted(table)]` */
  method SortedRules(lower: string -> string, table: Table) returns (rules: seq<Rule>)
    requires Keyed(lower, table)
    ensures Listing(lower, rules, table)
  {
    var keys := SortedKeys(table);
    rules := RulesAt(table, keys);
    InKeyOrder(lower, keys, rules, table);
  }

  method RulesAt(table: Table, keys: seq<Key>) returns (rules: seq<Rule>)
    requires forall k <- keys :: k in table
    ensures |rules| == |keys| && forall j | 0 <= j < |keys| :: rules[j] == table[keys[j]]
  {
    rules := [];
    for i := 0 to |keys|
      invariant |rules| == i
      invariant forall j | 0 <= j < i :: rules[j] == table[keys[j]]
    {
      rules := rules + [table[keys[i]]];
    }
  }

  lemma InKeyOrder(lower: string -> string, keys: seq<Key>, rules: seq<Rule>, table: Table)
    requires Keyed(lower, table) && (forall k :: k in keys <==> k in table)
    requires |rules| == |keys| && forall j | 0 <= j < |keys| :: rules[j] == table[keys[j]]
    requires forall i, j | 0 <= i < j < |keys| :: KeyLess(keys[i], keys[j])
    ensures Listing(lower, rules, table)
  {
    assert forall j | 0 <= j < |keys| :: KeyOf(lower, rules[j]) == keys[j];
    forall k | k in table ensures table[k] in rules {
      var i :| 0 <= i < |keys| && keys[i] == k;
      assert rules[i] == table[k];
    }
  }

  // ---------------------------------------------------------------- normalize_snapshot

  predicate Lands(env: Reader, a: Asset, inScope: bool) {
    a.inScope == inScope && env.normalize(a).Some?
  }

  function Bucket(env: Reader, assets: seq<Asset>, inScope: bool): Table {
    if assets == [] then map[]
    else
      var before, last := Bucket(env, assets[..|assets| - 1], inScope), assets[|assets| - 1];
      if Lands(env, last, inScope)
      then before[KeyOf(env.lower, env.normalize(last).value) := env.normalize(last).value]
      else before
  }

  /** The asset at i lands under key k as rule r, and no later one lands there. */
  ghost predicate LandsLastAt(env: Reader, assets: seq<Asset>, inScope: bool, k: Key, r: Rule, i: nat) {
    && i < |assets| && Lands(env, assets[i], inScope) && env.normalize(assets[i]).value == r && KeyOf(env.lower, r) == k
    && forall j | i < j < |assets| ::
         Lands(env, assets[j], inScope) ==> KeyOf(env.lower, env.normalize(assets[j]).value) != k
  }

  ghost predicate LastFor(env: Reader, assets: seq<Asset>, inScope: bool, k: Key, r: Rule) {
    exists i | 0 <= i < |assets| :: LandsLastAt(env, assets, inScope, k, r, i)
  }

  ghost predicate Mentions(env: Reader, assets: seq<Asset>, inScope: bool, k: Key) {
    exists a <- assets :: Lands(env, a, inScope) && KeyOf(env.lower, env.normalize(a).value) == k
  }

  /**
    A key is in a bucket exactly when some asset of that side normalizes to it, and the last such asset
    decides the rule.
  */
  lemma {:induction false} BucketMeaning(env: Reader, assets: seq<Asset>, inScope: bool, k: Key)
    ensures k in Bucket(env, assets, inScope) <==> Mentions(env, assets, inScope, k)
    ensures k in Bucket(env, assets, inScope) ==> LastFor(env, assets, inScope, k, Bucket(env, assets, inScope)[k])
  {
    if assets != [] {
      var n := |assets| - 1;
      var before, last := assets[..n], assets[n];
      BucketMeaning(env, before, inScope, k);
      assert forall a :: a in assets <==> a in before || a == last;
      if Lands(env, last, inScope) && KeyOf(env.lower, env.normalize(last).value) == k {
        assert LandsLastAt(env, assets, inScope, k, env.normalize(last).value, n);
      } else if k in Bucket(env, before, inScope) {
        StillLast(env, before, last, inScope, k, Bucket(env, before, inScope)[k]);
        assert assets == before + [last];
      }
    }
  }

  lemma StillLast(env: Reader, before: seq<Asset>, last: Asset, inScope: bool, k: Key, r: Rule)
    requires LastFor(env, before, inScope, k, r)
    requires Lands(env, last, inScope) ==> KeyOf(env.lower, env.normalize(last).value) != k
    ensures LastFor(env, before + [last], inScope, k, r)
  {
    var i :| 0 <= i < |before| && LandsLastAt(env, before, inScope, k, r, i);
    assert LandsLastAt(env, before + [last], inScope, k, r, i);
  }

  lemma {:induction false} BucketIsKeyed(env: Reader, assets: seq<Asset>, inScope: bool)
    ensures Keyed(env.lower, Bucket(env, assets, inScope))
  {
    if assets != [] {
      BucketIsKeyed(env, assets[..|assets| - 1], inScope);
    }
  }

  datatype Unsupported = Unsupported(target: string, category: string, inScope: bool)

  function Cut(s: string, n: nat): string {
    if |s| <= n then s else s[..n]
  }

  function ItemOf(a: Asset): Unsupported {
    Unsupported(Cut(a.target, 500), Cut(a.category, 200), a.inScope)
  }

  /** A rejected asset is reported by the first 500 characters of its target and 200 of its category, and its side. */
  lemma ItemOfMeaning(a: Asset)
    ensures ItemOf(a).target <= a.target && ItemOf(a).category <= a.category && ItemOf(a).inScope == a.inScope
    ensures |ItemOf(a).target| == if |a.target| < 500 then |a.target| else 500
    ensures |ItemOf(a).category| == if |a.category| < 200 then |a.category| else 200
  {
  }

  function Rejected(env: Reader, assets: seq<Asset>): seq<Unsupported> {
    if assets == [] then []
    else
      var last := assets[|assets| - 1];
      Rejected(env, assets[..|assets| - 1]) + if env.normalize(last).None? then [ItemOf(last)] else []
  }

  lemma {:induction false} RejectedMeaning(env: Reader, assets: seq<Asset>, u: Unsupported)
    ensures u in Rejected(env, assets) <==> exists a <- assets :: env.normalize(a).None? && ItemOf(a) == u
  {
    if assets != [] {
      RejectedMeaning(env, assets[..|assets| - 1], u);
      assert forall a :: a in assets <==> a in assets[..|assets| - 1] || a == assets[|assets| - 1];
    }
  }

  predicate ItemLess(a: Unsupported, b: Unsupported) {
    KeyLess((a.target, a.category), (b.target, b.category))
  }

  lemma ItemLessIsWeakOrder()
    ensures WeakOrder(ItemLess)
  {
    KeyLessIsStrictOrder();
    forall a: Unsupported, b: Unsupported, c: Unsupported | !ItemLess(b, a) && !ItemLess(c, b) ensures !ItemLess(c, a) {
      var x, y, z := (a.target, a.category), (b.target, b.category), (c.target, c.category);
      assert KeyLess(x, y) || x == y;
      assert KeyLess(y, z) || y == z;
    }
    forall a: Unsupported, b: Unsupported | ItemLess(a, b) ensures !ItemLess(b, a) {
      assert !KeyLess((a.target, a.category), (a.target, a.category));
    }
  }

  datatype NormalizedScope = NormalizedScope(includes: seq<Rule>, excludes: seq<Rule>, unsupported: seq<Unsupported>)

  ghost predicate Normalizes(env: Reader, assets: seq<Asset>, s: NormalizedScope) {
    && Listing(env.lower, s.includes, Bucket(env, assets, true))
    && Listing(env.lower, s.excludes, Bucket(env, assets, false))
    && Nondecreasing(s.unsupported, ItemLess) && multiset(s.unsupported) == multiset(Rejected(env, assets))
  }

  method NormalizeSnapshot(env: Reader, assets: seq<Asset>) returns (s: NormalizedScope)
    ensures Normalizes(env, assets, s)
  {
    var includes: Table := map[];
    var excludes: Table := map[];
    var unsupported: seq<Unsupported> := [];
    for i := 0 to |assets|
      invariant includes == Bucket(env, assets[..i], true)
      invariant excludes == Bucket(env, assets[..i], false)
      invariant unsupported == Rejected(env, assets[..i])
    {
      var asset := assets[i];
      assert assets[..i + 1][..i] == assets[..i];
      var rule := env.normalize(asset);
      if rule.None? {
        unsupported := unsupported + [ItemOf(asset)];
      } else if asset.inScope {
        includes := includes[KeyOf(env.lower, rule.value) := rule.value];
      } else {
        excludes := excludes[KeyOf(env.lower, rule.value) := rule.value];
      }
    }
    assert assets[..|assets|] == assets;
    BucketIsKeyed(env, assets, true);
    BucketIsKeyed(env, assets, false);
    var includeList := SortedRules(env.lower, includes);
    var excludeList := SortedRules(env.lower, excludes);
    ItemLessIsWeakOrder();
    StableSortCorrect(unsupported, ItemLess);
    s := NormalizedScope(includeList, excludeList, StableSort(unsupported, ItemLess));
  }

  predicate Keeps(env: Reader, rules: seq<Rule>, r: Rule) {
    exists q <- rules :: KeyOf(env.lower, q) == KeyOf(env.lower, r)
  }

  /**
    Every asset is accounted for in exactly one place: under its rule's key on its own side, or among
    the unsupported ones; and nothing else is listed anywhere.
  */
  lemma EveryAssetIsAccounted(env: Reader, assets: seq<Asset>, s: NormalizedScope)
    requires Normalizes(env, assets, s)
    ensures forall a <- assets ::
      match env.normalize(a)
      case Some(r) => Keeps(env, if a.inScope then s.includes else s.excludes, r)
      case None => ItemOf(a) in s.unsupported
    ensures forall r <- s.includes :: exists a <- assets :: a.inScope && env.normalize(a) == Some(r)
    ensures forall r <- s.excludes :: exists a <- assets :: !a.inScope && env.normalize(a) == Some(r)
    ensures forall u <- s.unsupported :: exists a <- assets :: env.normalize(a).None? && ItemOf(a) == u
  {
    forall a | a in assets && env.normalize(a).Some?
      ensures Keeps(env, if a.inScope then s.includes else s.excludes, env.normalize(a).value)
    {
      AssetIsListed(env, assets, if a.inScope then s.includes else s.excludes, a);
    }
    forall u ensures u in s.unsupported <==> exists a <- assets :: env.normalize(a).None? && ItemOf(a) == u {
      RejectedMeaning(env, assets, u);
      assert u in multiset(s.unsupported) <==> u in multiset(Rejected(env, assets));
    }
    forall r | r in s.includes ensures exists a <- assets :: a.inScope && env.normalize(a) == Some(r) {
      BucketMeaning(env, assets, true, KeyOf(env.lower, r));
    }
    forall r | r in s.excludes ensures exists a <- assets :: !a.inScope && env.normalize(a) == Some(r) {
      BucketMeaning(env, assets, false, KeyOf(env.lower, r));
    }
  }

  lemma AssetIsListed(env: Reader, assets: seq<Asset>, rules: seq<Rule>, a: Asset)
    requires a in assets && env.normalize(a).Some?
    requires Listing(env.lower, rules, Bucket(env, assets, a.inScope))
    ensures Keeps(env, rules, env.normalize(a).value)
  {
    var k := KeyOf(env.lower, env.normalize(a).value);
    BucketMeaning(env, assets, a.inScope, k);
    BucketIsKeyed(env, assets, a.inScope);
    assert Bucket(env, assets, a.inScope)[k] in rules;
  }

  // ---------------------------------------------------------------- manifests as the builder sees them

  datatype Automation = Automation(
    bbot: bool, nuclei: bool, repositories: bool, shodan: bool, autoHttp: bool, schedules: map<string, string>)

  const ALL_OFF := Automation(false, false, false, false, false, map[])

  /** limits is what the validators read of the network and preset settings; rest is everything only copied. */
  datatype Limits = Limits(pathsRestricted: bool, underOnePerSecond: bool, bbotUsesHttp: bool)

  datatype Draft = Draft(
    programId: string, name: string, platform: string, policyUrl: string,
    source: Option<ApprovalGate.SourceRef>, approvedHash: string,
    includes: seq<Rule>, excludes: seq<Rule>, automation: Automation, limits: Limits, rest: string)

  predicate SchedulesAccepted(d: Draft) {
    var a := d.automation;
    Seeds.SchedulesAccepted(Seeds.ScheduleView(a.bbot, a.nuclei, a.schedules.Keys, d.includes))
  }

  /** The validators of ProgramManifest that relate several settings. */
  predicate Validates(d: Draft) {
    && d.includes != []
    && (d.source.Some? ==> d.source.value.platform == d.platform)
    && !((d.limits.pathsRestricted || d.limits.underOnePerSecond)
         && ((d.automation.bbot && d.limits.bbotUsesHttp) || d.automation.nuclei))
    && SchedulesAccepted(d)
  }

  datatype BuildError = NoSupportedTarget | ManifestInvalid

  function TableOf(lower: string -> string, rules: seq<Rule>): Table {
    if rules == [] then map[]
    else TableOf(lower, rules[..|rules| - 1])[KeyOf(lower, rules[|rules| - 1]) := rules[|rules| - 1]]
  }

  lemma {:induction false} TableOfMeaning(lower: string -> string, rules: seq<Rule>)
    ensures Keyed(lower, TableOf(lower, rules))
    ensures forall r <- rules :: KeyOf(lower, r) in TableOf(lower, rules)
    ensures forall k <- TableOf(lower, rules) :: TableOf(lower, rules)[k] in rules
  {
    if rules != [] {
      TableOfMeaning(lower, rules[..|rules| - 1]);
      assert rules == rules[..|rules| - 1] + [rules[|rules| - 1]];
    }
  }

  function ExistingExcludes(existing: Option<Draft>): seq<Rule> {
    if existing.Some? then existing.value.excludes else []
  }

  function ExistingAutomation(existing: Option<Draft>): Automation {
    if existing.Some? then existing.value.automation else ALL_OFF
  }

  predicate NamesSupportedTarget(env: Reader, assets: seq<Asset>) {
    exists a <- assets :: Lands(env, a, true)
  }

  predicate Unsafe(env: Reader, assets: seq<Asset>) {
    exists a <- assets :: !a.inScope && env.normalize(a).None?
  }

  predicate NamesConcreteTarget(env: Reader, assets: seq<Asset>) {
    exists k <- Bucket(env, assets, true) :: Seeds.Concrete(Bucket(env, assets, true)[k])
  }

  predicate SchedulesScanner(m: Automation) {
    (m.bbot && "bbot" in m.schedules) || (m.nuclei && "nuclei" in m.schedules)
  }

  /** The stored manifest, or the empty one a first candidate starts from. */
  function Base(config: ApprovalGate.SourceConfig, snapshot: Snapshot, existing: Option<Draft>): Draft {
    if existing.Some? then existing.value
    else Draft(config.programId, snapshot.name, config.platform, snapshot.policyUrl, None, "pending", [], [],
               ALL_OFF, Limits(false, false, false), "")
  }

  /** The binding of a candidate to its source at the revision fetched. */
  function Reference(config: ApprovalGate.SourceConfig, snapshot: Snapshot): ApprovalGate.SourceRef {
    ApprovalGate.SourceRef(config.sourceId, config.platform, config.remoteIdentifier, snapshot.revisionHash)
  }

  function Updated(d: Draft, config: ApprovalGate.SourceConfig, snapshot: Snapshot, includes: seq<Rule>,
          excludes: seq<Rule>): Draft {
    d.(name := snapshot.name, platform := config.platform, policyUrl := snapshot.policyUrl,
       source := Some(Reference(config, snapshot)),
       approvedHash := "pending", includes := includes, excludes := excludes)
  }

  /** A rule from which a scheduled scanner can start without being told a target. */
  predicate IsConcrete(r: Rule) {
    || (r.kind.DomainRule? && !("*." <= r.value))
    || (r.kind.UrlRule? && '*' !in r.value)
    || (r.kind.CidrRule? && '*' !in r.value)
  }

  lemma ConcreteMeaning(r: Rule)
    ensures Seeds.Concrete(r) <==> IsConcrete(r)
  {
  }

  method AssembleCandidate(env: Reader, config: ApprovalGate.SourceConfig, snapshot: Snapshot, existing: Option<Draft>)
    returns (r: Result<Draft, BuildError>)
    requires existing.Some? ==> Validates(existing.value)
    ensures r == Err(NoSupportedTarget) <==> !NamesSupportedTarget(env, snapshot.assets)
    ensures r == Err(ManifestInvalid) <==>
      && NamesSupportedTarget(env, snapshot.assets)
      && !Unsafe(env, snapshot.assets) && SchedulesScanner(ExistingAutomation(existing))
      && !NamesConcreteTarget(env, snapshot.assets)
    ensures r.Ok? ==>
      && Validates(r.value)
      && r.value == Updated(Base(config, snapshot, existing), config, snapshot, r.value.includes, r.value.excludes).(
           automation := if Unsafe(env, snapshot.assets) then ALL_OFF else ExistingAutomation(existing))
      && Listing(env.lower, r.value.includes, Bucket(env, snapshot.assets, true))
      && Listing(env.lower, r.value.excludes,
                 TableOf(env.lower, ExistingExcludes(existing)) + Bucket(env, snapshot.assets, false))
  {
    var scope := NormalizeSnapshot(env, snapshot.assets);
    IncludesAreEmptyWhen(env, snapshot.assets, scope);
    if scope.includes == [] {
      return Err(NoSupportedTarget);
    }
    var localExcludes := AddRules(env.lower, map[], ExistingExcludes(existing));
    assert localExcludes == TableOf(env.lower, ExistingExcludes(existing));
    localExcludes := AddRules(env.lower, localExcludes, scope.excludes);
    MergedTable(env, ExistingExcludes(existing), snapshot.assets, scope.excludes);
    var excludes := SortedRules(env.lower, localExcludes);
    var candidate := Updated(Base(config, snapshot, existing), config, snapshot, scope.includes, excludes);
    UnsafeIsReported(env, snapshot.assets, scope);
    if exists u <- scope.unsupported :: !u.inScope {
      candidate := candidate.(automation := ALL_OFF);
    }
    ValidatesWhen(env, snapshot.assets, scope, Base(config, snapshot, existing), candidate);
    if !Validates(candidate) {
      return Err(ManifestInvalid);
    }
    return Ok(candidate);
  }

  /**
    Some supported target is in scope, every exclusion can be represented, the stored manifest schedules
    an enabled scanner, and no rule of the new scope is one to start from.
  */
  ghost predicate LeavesScannerWithoutSeed(env: Reader, assets: seq<Asset>, existing: Option<Draft>) {
    && (exists a <- assets :: a.inScope && env.normalize(a).Some?)
    && (forall a <- assets :: !a.inScope ==> env.normalize(a).Some?)
    && existing.Some?
    && ((existing.value.automation.bbot && "bbot" in existing.value.automation.schedules)
        || (existing.value.automation.nuclei && "nuclei" in existing.value.automation.schedules))
    && (forall k <- Bucket(env, assets, true) :: !IsConcrete(Bucket(env, assets, true)[k]))
  }

  lemma RefusedExactlyWhen(env: Reader, assets: seq<Asset>, existing: Option<Draft>)
    ensures LeavesScannerWithoutSeed(env, assets, existing) <==>
      && NamesSupportedTarget(env, assets) && !Unsafe(env, assets)
      && SchedulesScanner(ExistingAutomation(existing)) && !NamesConcreteTarget(env, assets)
  {
    var bucket := Bucket(env, assets, true);
    forall k | k in bucket ensures Seeds.Concrete(bucket[k]) <==> IsConcrete(bucket[k]) {
      ConcreteMeaning(bucket[k]);
    }
  }

  /**
    A candidate exists unless the snapshot names no supported target, or the manifest it replaces
    schedules a scanner that the new scope leaves without a concrete seed. Its exclusions are the old
    ones and the fetched ones, a fetched rule replacing an old one of its key; its automation is
    unchanged, or all off as soon as one exclusion cannot be represented; it is never approved.
  */
  method BuildCandidate(env: Reader, config: ApprovalGate.SourceConfig, snapshot: Snapshot, existing: Option<Draft>)
    returns (r: Result<Draft, BuildError>)
    requires existing.Some? ==> Validates(existing.value)
    ensures r == Err(NoSupportedTarget) <==>
      forall a <- snapshot.assets :: a.inScope ==> env.normalize(a).None?
    ensures r == Err(ManifestInvalid) <==> LeavesScannerWithoutSeed(env, snapshot.assets, existing)
    ensures r.Ok? ==>
      && r.value.approvedHash == "pending"
      && r.value.name == snapshot.name && r.value.policyUrl == snapshot.policyUrl && r.value.platform == config.platform
      && r.value.source.Some?
      && (var ref := r.value.source.value;
          && ref.sourceId == config.sourceId && ref.platform == config.platform
          && ref.remoteIdentifier == config.remoteIdentifier && ref.revisionHash == snapshot.revisionHash)
      && Listing(env.lower, r.value.includes, Bucket(env, snapshot.assets, true))
      && Listing(env.lower, r.value.excludes,
                 TableOf(env.lower, ExistingExcludes(existing)) + Bucket(env, snapshot.assets, false))
      && r.value.programId == (if existing.Some? then existing.value.programId else config.programId)
      && (existing.Some? ==> r.value.limits == existing.value.limits && r.value.rest == existing.value.rest)
    ensures r.Ok? ==>
      var m := r.value.automation;
      && (existing.None? || (exists a <- snapshot.assets :: !a.inScope && env.normalize(a).None?) ==>
            !m.bbot && !m.nuclei && !m.repositories && !m.shodan && !m.autoHttp && m.schedules == map[])
      && (existing.Some? && (forall a <- snapshot.assets :: !a.inScope ==> env.normalize(a).Some?) ==>
            m == existing.value.automation)
    ensures r.Ok? ==>
      var m, limits := r.value.automation, r.value.limits;
      && r.value.includes != []
      && (limits.pathsRestricted || limits.underOnePerSecond ==> !m.nuclei && !(m.bbot && limits.bbotUsesHttp))
      && ((m.bbot && "bbot" in m.schedules) || (m.nuclei && "nuclei" in m.schedules) ==>
            exists q <- r.value.includes :: IsConcrete(q))
  {
    r := AssembleCandidate(env, config, snapshot, existing);
    forall q: Rule ensures Seeds.Concrete(q) <==> IsConcrete(q) {
      ConcreteMeaning(q);
    }
    RefusedExactlyWhen(env, snapshot.assets, existing);
  }

  lemma MergedTable(env: Reader, prior: seq<Rule>, assets: seq<Asset>, fetched: seq<Rule>)
    requires Listing(env.lower, fetched, Bucket(env, assets, false))
    ensures var table := TableOf(env.lower, prior) + TableOf(env.lower, fetched);
      table == TableOf(env.lower, prior) + Bucket(env, assets, false) && Keyed(env.lower, table)
  {
    BucketIsKeyed(env, assets, false);
    ListingIsTable(env.lower, fetched, Bucket(env, assets, false));
    TableOfMeaning(env.lower, prior);
  }

  /** Of the validators only the one on scheduled scanners can refuse a candidate. */
  lemma ValidatesWhen(env: Reader, assets: seq<Asset>, s: NormalizedScope, base: Draft, d: Draft)
    requires Normalizes(env, assets, s) && s.includes != [] && (base.automation == ALL_OFF || Validates(base))
    requires d.includes == s.includes && d.limits == base.limits
    requires d.source.Some? ==> d.source.value.platform == d.platform
    requires d.automation == (if Unsafe(env, assets) then ALL_OFF else base.automation)
    ensures Validates(d) <==>
      Unsafe(env, assets) || !SchedulesScanner(base.automation) || NamesConcreteTarget(env, assets)
  {
    ConcreteIsListed(env, assets, s);
  }

  /** `for rule in rules: base[(rule.type, rule.value.lower())] = rule` */
  method AddRules(lower: string -> string, base: Table, rules: seq<Rule>) returns (table: Table)
    ensures table == base + TableOf(lower, rules)
  {
    table := base;
    for i := 0 to |rules|
      invariant table == base + TableOf(lower, rules[..i])
    {
      assert rules[..i + 1][..i] == rules[..i];
      table := table[KeyOf(lower, rules[i]) := rules[i]];
    }
    assert rules[..|rules|] == rules;
  }

  lemma ListingIsTable(lower: string -> string, rules: seq<Rule>, table: Table)
    requires Listing(lower, rules, table) && Keyed(lower, table)
    ensures TableOf(lower, rules) == table
  {
    TableOfMeaning(lower, rules);
    forall k ensures k in table <==> k in TableOf(lower, rules)
      ensures k in table && k in TableOf(lower, rules) ==> table[k] == TableOf(lower, rules)[k]
    {
      if k in table {
        assert table[k] in rules;
      }
    }
  }

  lemma IncludesAreEmptyWhen(env: Reader, assets: seq<Asset>, s: NormalizedScope)
    requires Normalizes(env, assets, s)
    ensures s.includes == [] <==> !NamesSupportedTarget(env, assets)
  {
    EveryAssetIsAccounted(env, assets, s);
    if s.includes != [] {
      assert s.includes[0] in s.includes;
    }
  }

  lemma UnsafeIsReported(env: Reader, assets: seq<Asset>, s: NormalizedScope)
    requires Normalizes(env, assets, s)
    ensures Unsafe(env, assets) <==> exists u <- s.unsupported :: !u.inScope
  {
    EveryAssetIsAccounted(env, assets, s);
    if Unsafe(env, assets) {
      var a :| a in assets && !a.inScope && env.normalize(a).None?;
      assert ItemOf(a) in s.unsupported;
    }
  }

  lemma ConcreteIsListed(env: Reader, assets: seq<Asset>, s: NormalizedScope)
    requires Normalizes(env, assets, s)
    ensures NamesConcreteTarget(env, assets) <==> exists r <- s.includes :: Seeds.Concrete(r)
  {
  }

  // ---------------------------------------------------------------- what the candidate guarantees

  /** The candidate's exclusions have exactly the keys of the old and the fetched exclusions together. */
  lemma ExclusionsNeverShrink(env: Reader, prior: seq<Rule>, assets: seq<Asset>, merged: seq<Rule>, k: Key)
    requires Listing(env.lower, merged, TableOf(env.lower, prior) + Bucket(env, assets, false))
    ensures (exists r <- merged :: KeyOf(env.lower, r) == k) <==>
      (exists r <- prior :: KeyOf(env.lower, r) == k) || Mentions(env, assets, false, k)
  {
    TableOfMeaning(env.lower, prior);
    BucketIsKeyed(env, assets, false);
    BucketMeaning(env, assets, false, k);
    var table := TableOf(env.lower, prior) + Bucket(env, assets, false);
    assert k in table <==> exists r <- merged :: KeyOf(env.lower, r) == k by {
      if k in table {
        assert table[k] in merged && KeyOf(env.lower, table[k]) == k;
      }
    }
  }

  /** A candidate installed as it was written, whatever its bytes hash to. */
  function Installed(digest: ConfigFiles.Digest, raw: ConfigFiles.RawManifest, d: Draft,
          policySnapshotValid: bool): ApprovalGate.LoadedManifest {
    ApprovalGate.LoadedManifest(
      ApprovalGate.Manifest(d.programId, d.source, d.approvedHash, d.rest),
      ConfigFiles.ManifestHash(digest, raw), policySnapshotValid)
  }

  /** Such a manifest never activates its program, whatever else is loaded with it. */
  lemma UnreviewedCandidateNeverActivates(digest: ConfigFiles.Digest, raw: ConfigFiles.RawManifest, d: Draft,
          policySnapshotValid: bool, env: ApprovalGate.Settings, g: ApprovalGate.Gate,
          loaded: seq<ApprovalGate.LoadedManifest>, invalid: seq<ApprovalGate.InvalidManifest>, g': ApprovalGate.Gate)
    requires d.approvedHash == "pending" && Installed(digest, raw, d, policySnapshotValid) in loaded
    requires ApprovalGate.UniqueIds(loaded) && ApprovalGate.Synced(env, g, loaded, invalid, g')
    ensures d.programId in g'.programs ==> !g'.programs[d.programId].active
  {
    var e := Installed(digest, raw, d, policySnapshotValid);
    assert "pending"[0] != "sha256:"[0];
    ConfigFiles.UntaggedHashNeverApproves(digest, raw, "pending");
    ApprovalGate.LoadedForUnique(loaded, e);
    GateRuns.ActiveSetIsExact(env, g, loaded, invalid, g', d.programId);
  }

  // ---------------------------------------------------------------- do the merged exclusions still exclude?

  /**
    What the text functions make of two rule values that differ only in case: one host name, one
    block. Repository and cloud patterns are lower-cased when they are used; of URLs nothing is assumed.
  */
  ghost predicate ReadAlike(x: Texts, a: Rule, b: Rule) {
    match a.kind
    case DomainRule => x.normalize(a.value) == x.normalize(b.value)
    case CidrRule => x.parse(a.value).network == x.parse(b.value).network
    case _ => true
  }

  lemma OtherKindsMatchAlike(x: Texts, a: Rule, b: Rule, t: Target)
    requires KeyOf(x.lower, a) == KeyOf(x.lower, b) && ReadAlike(x, a, b) && !a.kind.UrlRule?
    ensures RuleMatches(x, a, t) == RuleMatches(x, b, t)
  {
    SameKeySameKind(x.lower, a, b);
  }

  lemma {:induction false} StripKeeps(s: string, n: nat)
    requires n <= |s| && (n == 0 || s[n - 1] != '/')
    ensures n <= |StripSlashes(s)| <= |s| && StripSlashes(s) == s[..|StripSlashes(s)|]
    ensures var r := StripSlashes(s); r == "" || r[|r| - 1] != '/'
  {
    if s != [] && s[|s| - 1] == '/' {
      StripKeeps(s[..|s| - 1], n);
    }
  }

  lemma PathUnderIsTransitive(a: string, b: string, c: string)
    requires PathUnder(a, b) && PathUnder(b, c)
    ensures PathUnder(a, c)
  {
    if a != b && b != c {
      StripKeeps(a, 0);
      var p := StripSlashes(a);
      assert p == b[..|p|] by { assert (p + "/")[..|p|] == p; }
      assert p == "" || b[|p| - 1] == p[|p| - 1];
      StripKeeps(b, |p|);
      var q := StripSlashes(b);
      assert (q + "/")[..|p| + 1] == p + "/" by {
        assert q[..|p|] == p;
        assert b[|p|] == (p + "/")[|p|] == '/';
        if |p| < |q| {
          assert q[|p|] == b[|p|];
        }
      }
      assert c[..|p| + 1] == c[..|q| + 1][..|p| + 1];
    }
  }

  /**
    A URL exclusion replaced by one of the same key keeps excluding all it excluded exactly when the
    new rule matches the old rule's own URL; the two can differ in the case of their paths.
  */
  lemma ReplacementCoversExactlyWhen(x: Texts, older: Rule, newer: Rule)
    requires KeyOf(x.lower, older) == KeyOf(x.lower, newer)
    requires older.kind.UrlRule? && newer.kind.UrlRule? && Seeds.ValidRule(x, older)
    ensures (forall t | RuleMatches(x, older, t).Yes? :: RuleMatches(x, newer, t).Yes?) <==>
      RuleMatches(x, newer, x.parse(older.value)).Yes?
  {
    var own := x.parse(older.value);
    Seeds.HostMatchesItself(x, own.url.hostname.value);
    assert RuleMatches(x, older, own).Yes?;
    if RuleMatches(x, newer, own).Yes? {
      forall t | RuleMatches(x, older, t).Yes? ensures RuleMatches(x, newer, t).Yes? {
        PathUnderIsTransitive(PathOr(x.parse(newer.value).url.path), PathOr(own.url.path), PathOr(t.url.path));
      }
    }
  }

  lemma SuffixOfSuffix(a: string, b: string, c: string)
    requires EndsWith(b, a) && EndsWith(c, b)
    ensures EndsWith(c, a)
  {
    var front, middle := c[..|c| - |b|], b[..|b| - |a|];
    assert b == middle + a;
    assert c == front + b;
    assert c == (front + middle) + a;
    assert ((front + middle) + a)[|front + middle|..] == a;
  }

  lemma SuffixOfTail(a: string, b: string)
    requires EndsWith(b, a) && |a| < |b|
    ensures EndsWith(b[1..], a)
  {
    var middle := b[..|b| - |a|];
    assert b == middle + a;
    assert b[1..] == middle[1..] + a;
  }

  /** A text that begins with a dot and ends a wildcard ends whatever the wildcard's own suffix ends. */
  lemma NestedSuffix(wildcard: string, inner: string, text: string)
    requires |wildcard| > 0 && wildcard[0] == '*' && inner != "" && inner[0] == '.'
    requires EndsWith(wildcard, inner) && EndsWith(text, wildcard[1..])
    ensures EndsWith(text, inner) && |inner| < |wildcard|
  {
    assert wildcard[0..] == wildcard;
    if |inner| == |wildcard| {
      assert false;
    }
    SuffixOfTail(inner, wildcard);
    SuffixOfSuffix(inner, wildcard[1..], text);
  }

  /** A pattern that matches a host name used as a pattern matches whatever that host name matches. */
  lemma DomainMatchesChain(x: Texts, pattern: string, between: string, hostname: string)
    requires DomainMatches(x, pattern, between) && DomainMatches(x, between, hostname)
    ensures DomainMatches(x, pattern, hostname)
  {
    var p, b, h := x.normalize(pattern), x.normalize(between), x.normalize(hostname);
    if StartsWith(b, "*.") && StartsWith(p, "*.") {
      assert b[..2][0] == b[0] == '*' && b[..2][1] == b[1];
      assert "." + b[2..] == b[1..];
      NestedSuffix(b, "." + p[2..], h);
    }
  }

  /** A repository or cloud pattern, matched against the whole text. */
  predicate IsPattern(r: Rule) {
    r.kind.RepositoryRule? || r.kind.CloudRule?
  }

  /** A validated URL rule; such a text is never a network. */
  ghost predicate ValidUrlRule(x: Texts, r: Rule) {
    r.kind.UrlRule? && Seeds.ValidRule(x, r) && x.parse(r.value).network.None?
  }

  /** A rule that does not miss the URL of an old exclusion does not miss what that exclusion matched. */
  lemma RuleMatchesChain(x: Texts, q: Rule, r: Rule, t: Target)
    requires ValidUrlRule(x, r) && !IsPattern(q)
    requires !RuleMatches(x, q, x.parse(r.value)).No? && RuleMatches(x, r, t).Yes?
    ensures !RuleMatches(x, q, t).No?
  {
    var own := x.parse(r.value);
    match q.kind {
      case DomainRule => DomainMatchesChain(x, q.value, own.url.hostname.value, t.url.hostname.value);
      case UrlRule =>
        var pattern := x.parse(q.value);
        DomainMatchesChain(x, pattern.url.hostname.value, own.url.hostname.value, t.url.hostname.value);
        if !pattern.url.port.BadPort? {
          PathUnderIsTransitive(PathOr(pattern.url.path), PathOr(own.url.path), PathOr(t.url.path));
        }
      case _ =>
    }
  }

  /** Whatever the old exclusions matched the new ones do not miss. */
  ghost predicate StillExcludes(x: Texts, prior: seq<Rule>, merged: seq<Rule>) {
    forall t | AnyMatches(x, prior, t).Yes? :: !AnyMatches(x, merged, t).No?
  }

  /** The new exclusions miss no URL that an old one names. */
  predicate CoversOldUrls(x: Texts, prior: seq<Rule>, merged: seq<Rule>) {
    forall r <- prior | r.kind.UrlRule? :: !AnyMatches(x, merged, x.parse(r.value)).No?
  }

  /** No repository or cloud pattern among the new exclusions happens to match a URL that an old one names. */
  predicate PatternsMissUrls(x: Texts, prior: seq<Rule>, merged: seq<Rule>) {
    forall r <- prior, q <- merged | r.kind.UrlRule? && IsPattern(q) :: RuleMatches(x, q, x.parse(r.value)).No?
  }

  /** The URL of every old exclusion is met by a new domain, URL or block rule. */
  predicate HostRulesCoverOldUrls(x: Texts, prior: seq<Rule>, merged: seq<Rule>) {
    forall r <- prior | r.kind.UrlRule? ::
      exists q <- merged :: !IsPattern(q) && !RuleMatches(x, q, x.parse(r.value)).No?
  }

  /** What the merged list of exclusions guarantees about the old one, target by target. */
  lemma OldMatchIsNotMissed(x: Texts, env: Reader, prior: seq<Rule>, assets: seq<Asset>, merged: seq<Rule>, t: Target)
    requires env.lower == x.lower && (forall r <- prior | r.kind.UrlRule? :: ValidUrlRule(x, r))
    requires forall r <- prior, q <- merged | !r.kind.UrlRule? && KeyOf(env.lower, q) == KeyOf(env.lower, r) ::
      ReadAlike(x, r, q)
    requires Listing(env.lower, merged, TableOf(env.lower, prior) + Bucket(env, assets, false))
    requires HostRulesCoverOldUrls(x, prior, merged) && AnyMatches(x, prior, t).Yes?
    ensures !AnyMatches(x, merged, t).No?
  {
    AnyMatchesMeaning(x, prior, t);
    AnyMatchesMeaning(x, merged, t);
    var r :| r in prior && RuleMatches(x, r, t).Yes?;
    if r.kind.UrlRule? {
      var q :| q in merged && !IsPattern(q) && !RuleMatches(x, q, x.parse(r.value)).No?;
      RuleMatchesChain(x, q, r, t);
    } else {
      ExclusionsNeverShrink(env, prior, assets, merged, KeyOf(env.lower, r));
      var q :| q in merged && KeyOf(env.lower, q) == KeyOf(env.lower, r);
      OtherKindsMatchAlike(x, r, q, t);
    }
  }

  lemma OwnUrlIsMatched(x: Texts, prior: seq<Rule>, r: Rule)
    requires r in prior && ValidUrlRule(x, r)
    ensures !AnyMatches(x, prior, x.parse(r.value)).No?
    ensures (forall q <- prior :: !RuleMatches(x, q, x.parse(r.value)).Raises?) ==>
      AnyMatches(x, prior, x.parse(r.value)).Yes?
  {
    var own := x.parse(r.value);
    Seeds.HostMatchesItself(x, own.url.hostname.value);
    assert RuleMatches(x, r, own).Yes?;
    AnyMatchesMeaning(x, prior, own);
  }

  /** No old exclusion raises on the URL of another: networks and bad ports aside, none can. */
  lemma OldUrlsNeverRaise(x: Texts, prior: seq<Rule>, r: Rule, q: Rule)
    requires ValidUrlRule(x, r) && (q.kind.UrlRule? ==> ValidUrlRule(x, q))
    ensures !RuleMatches(x, q, x.parse(r.value)).Raises?
  {
  }

  /**
    The merged exclusions still exclude all that the old ones did exactly when they miss none of the
    URLs that the old ones name, a test to be made before the candidate is installed. A repository or
    cloud pattern could only blur the test by matching such a URL; if one does, the URL must be met by
    another rule for the test to suffice.
  */
  lemma MergedExclusionsStillExclude(x: Texts, env: Reader, prior: seq<Rule>, assets: seq<Asset>, merged: seq<Rule>)
    requires env.lower == x.lower && (forall r <- prior | r.kind.UrlRule? :: ValidUrlRule(x, r))
    requires forall r <- prior, q <- merged | !r.kind.UrlRule? && KeyOf(env.lower, q) == KeyOf(env.lower, r) ::
      ReadAlike(x, r, q)
    requires Listing(env.lower, merged, TableOf(env.lower, prior) + Bucket(env, assets, false))
    ensures HostRulesCoverOldUrls(x, prior, merged) ==> StillExcludes(x, prior, merged)
    ensures StillExcludes(x, prior, merged) ==> CoversOldUrls(x, prior, merged)
    ensures PatternsMissUrls(x, prior, merged) ==>
      (StillExcludes(x, prior, merged) <==> CoversOldUrls(x, prior, merged))
  {
    if HostRulesCoverOldUrls(x, prior, merged) {
      forall t | AnyMatches(x, prior, t).Yes? ensures !AnyMatches(x, merged, t).No? {
        OldMatchIsNotMissed(x, env, prior, assets, merged, t);
      }
    }
    forall r | r in prior && r.kind.UrlRule? ensures AnyMatches(x, prior, x.parse(r.value)).Yes? {
      forall q | q in prior ensures !RuleMatches(x, q, x.parse(r.value)).Raises? {
        OldUrlsNeverRaise(x, prior, r, q);
      }
      OwnUrlIsMatched(x, prior, r);
    }
    if PatternsMissUrls(x, prior, merged) && CoversOldUrls(x, prior, merged) {
      forall r | r in prior && r.kind.UrlRule?
        ensures exists q <- merged :: !IsPattern(q) && !RuleMatches(x, q, x.parse(r.value)).No?
      {
        AnyMatchesMeaning(x, merged, x.parse(r.value));
      }
    }
  }

  lemma SameKeySameKind(lower: string -> string, a: Rule, b: Rule)
    requires KeyOf(lower, a) == KeyOf(lower, b)
    ensures a.kind == b.kind
  {
  }

  /**
    Without that condition an exclusion lapses: whenever a fetched URL exclusion takes the key of the
    old one and its path does not lead to the old path, the merged exclusions let the old URL through.
  */
  lemma MergedExclusionCanLapse(x: Texts, env: Reader, older: Rule, newer: Rule, assets: seq<Asset>, merged: seq<Rule>)
    requires env.lower == x.lower && KeyOf(x.lower, older) == KeyOf(x.lower, newer)
    requires older.kind.UrlRule? && Seeds.ValidRule(x, older) && Seeds.ValidRule(x, newer)
    requires !PathUnder(PathOr(x.parse(newer.value).url.path), PathOr(x.parse(older.value).url.path))
    requires Bucket(env, assets, false) == map[KeyOf(env.lower, newer) := newer]
    requires Listing(env.lower, merged, TableOf(env.lower, [older]) + Bucket(env, assets, false))
    ensures AnyMatches(x, [older], x.parse(older.value)).Yes?
    ensures AnyMatches(x, merged, x.parse(older.value)).No?
  {
    var own := x.parse(older.value);
    SameKeySameKind(x.lower, older, newer);
    Seeds.HostMatchesItself(x, own.url.hostname.value);
    SingleRule(x, older, own);
    OnlyTheFetchedRule(env.lower, older, newer, merged);
    AnyMatchesMeaning(x, merged, own);
  }

  lemma OnlyTheFetchedRule(lower: string -> string, older: Rule, newer: Rule, merged: seq<Rule>)
    requires KeyOf(lower, older) == KeyOf(lower, newer)
    requires Listing(lower, merged, TableOf(lower, [older]) + map[KeyOf(lower, newer) := newer])
    ensures forall r <- merged :: r == newer
  {
    assert [older][..0] == [];
    assert TableOf(lower, [older]) == map[KeyOf(lower, older) := older];
  }
}
