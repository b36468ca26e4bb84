/** Client policy: pools, inline rules, their validation and resolution. */
module Policy {
  import opened Prelude
  import opened Text
  import opened Desired
  import opened Graph
  import opened Rules

  datatype PoolKind = Select | UrlTest | Fallback | LoadBalance

  /** Selects members of a pool. */
  datatype PoolMember =
    | ByProfile(name: string) | ByCapability(capability: string) | ByRole(role: ProxyRole) | ExceptRole(role: ProxyRole)
    | ByPool(id: string) | AllProfiles | Direct | Rejecting

  datatype TransportPool = TransportPool(
    id: string, displayName: string, kind: PoolKind, enabled: bool, members: seq<PoolMember>, testUrl: Option<string>,
    interval: Option<nat>, timeout: Option<nat>, tolerance: Option<nat>, maxFailures: Option<nat>, isLazy: bool,
    minimumHealthy: Option<nat>, fallback: Option<string>, priority: int, strategy: Option<string>)

  datatype PolicyRule = PolicyRule(
    id: string, displayName: string, enabled: bool, priority: int, condition: string, target: string)

  datatype ClientPolicy = ClientPolicy(pools: seq<TransportPool>, rules: seq<PolicyRule>)

  const DIRECT := "DIRECT"
  const REJECT := "REJECT"
  const MATCH := "MATCH"
  const CAPABILITY := "capability:"
  const STRATEGIES: seq<string> := ["round-robin", "consistent-hashing", "sticky-sessions"]

  // ------------------------------------------------------------------
  // The pool graph

  function FindPool(pools: seq<TransportPool>, id: string): (r: Option<TransportPool>)
    ensures r.Some? ==> r.value in pools && r.value.enabled && r.value.id == id
    ensures r.None? ==> forall p :: p in pools && p.enabled ==> p.id != id
  {
    if pools == [] then None
    else if pools[0].enabled && pools[0].id == id then Some(pools[0])
    else
      assert pools == [pools[0]] + pools[1..];
      FindPool(pools[1..], id)
  }

  function PoolIds(members: seq<PoolMember>): (r: seq<string>)
    ensures forall id :: id in r <==> ByPool(id) in members
  {
    if members == [] then []
    else
      assert members == [members[0]] + members[1..];
      (if members[0].ByPool? then [members[0].id] else []) + PoolIds(members[1..])
  }

  /** The pools a pool refers to: pool members, then the fallback. */
  function Children(pool: TransportPool): seq<string> {
    PoolIds(pool.members) + if pool.fallback.Some? then [pool.fallback.value] else []
  }

  function EnabledIds(pools: seq<TransportPool>): (r: set<string>)
    ensures forall id :: id in r <==> exists p :: p in pools && p.enabled && p.id == id
  {
    set p | p in pools && p.enabled :: p.id
  }

  lemma EnabledIsFound(pools: seq<TransportPool>, id: string)
    ensures id in EnabledIds(pools) <==> FindPool(pools, id).Some?
  {
  }

  /** References between enabled pools; everything else is a leaf. */
  function PoolGraph(pools: seq<TransportPool>): Graph {
    map id | id in EnabledIds(pools) :: match FindPool(pools, id) case Some(pool) => Children(pool) case None => []
  }

  lemma GraphOf(pools: seq<TransportPool>, id: string)
    ensures id in PoolGraph(pools) <==> FindPool(pools, id).Some?
    ensures id in PoolGraph(pools) ==> PoolGraph(pools)[id] == Children(FindPool(pools, id).value)
  {
    EnabledIsFound(pools, id);
  }

  /** Nothing reachable from `id` is forbidden or lies on a cycle. */
  ghost predicate CleanFrom(g: Graph, id: string, forbidden: set<string>) {
    forall m :: Reaches(g, id, m) ==> m !in forbidden && !Leads(g, m, m)
  }

  /** The path-tracking search; it has no set of finished nodes. */
  class CycleSearch {
    const pools: seq<TransportPool>
    const root: string
    var visiting: set<string>

    constructor (pools: seq<TransportPool>, root: string)
      ensures this.pools == pools && this.root == root && visiting == {}
    {
      this.pools, this.root := pools, root;
      visiting := {};
    }

    method Detect(current: string) returns (ok: bool)
      requires root in PoolGraph(pools) && Reaches(PoolGraph(pools), root, current)
      requires visiting <= PoolGraph(pools).Keys && forall v :: v in visiting ==> Leads(PoolGraph(pools), v, current)
      modifies this
      ensures ok ==> visiting == old(visiting) && CleanFrom(PoolGraph(pools), current, visiting)
      ensures !ok ==> !Acyclic(PoolGraph(pools))
      decreases PoolGraph(pools).Keys - visiting
    {
      hide PoolGraph, Reaches, Leads;
      ghost var g := PoolGraph(pools);
      GraphOf(pools, current);
      var found := FindPool(pools, current);
      if found.None? {
        LeafIsClean(g, current, visiting);
        return true;
      }
      if current in visiting {
        return false;
      }
      ghost var before := visiting;
      visiting := visiting + {current};
      var children := Children(found.value);
      for i := 0 to |children|
        invariant visiting == before + {current}
        invariant forall k :: 0 <= k < i ==> CleanFrom(g, children[k], visiting)
      {
        ChildIsReached(g, root, current, children[i], before);
        if children[i] == root {
          return false;
        }
        ok := Detect(children[i]);
        if !ok {
          return false;
        }
      }
      AllChildrenClean(g, current, before);
      visiting := visiting - {current};
      return true;
    }
  }

  lemma LeafIsClean(g: Graph, id: string, forbidden: set<string>)
    requires id !in g && forbidden <= g.Keys
    ensures CleanFrom(g, id, forbidden)
  {
    forall m | Reaches(g, id, m) ensures m !in forbidden && !Leads(g, m, m) {
      ReachesCases(g, id, m);
    }
  }

  lemma ChildIsReached(g: Graph, root: string, id: string, child: string, visiting: set<string>)
    requires Edge(g, id, child) && Reaches(g, root, id) && forall v :: v in visiting ==> Leads(g, v, id)
    ensures Reaches(g, root, child) && forall v :: v in visiting + {id} ==> Leads(g, v, child)
    ensures child == root && root in g ==> !Acyclic(g)
  {
    EdgeReaches(g, id, child);
    ReachesTransitive(g, root, id, child);
    forall v | v in visiting ensures Leads(g, v, child) {
      LeadsThenReaches(g, v, id, child);
    }
    if child == root {
      assert Leads(g, id, root);
      LeadsThenReaches(g, id, root, id);
    }
  }

  lemma AllChildrenClean(g: Graph, id: string, before: set<string>)
    requires id in g && id !in before
    requires forall child :: Edge(g, id, child) ==> CleanFrom(g, child, before + {id})
    ensures CleanFrom(g, id, before)
  {
    forall m | Reaches(g, id, m) ensures m !in before && !Leads(g, m, m) {
      ReachesCases(g, id, m);
      if Leads(g, id, m) {
        var child :| Edge(g, id, child) && Reaches(g, child, m);
        assert CleanFrom(g, child, before + {id});
      }
    }
  }

  /** Searching from one enabled pool: acceptance rules out a cycle through it, rejection proves that there is one. */
  method NoCycleFrom(pools: seq<TransportPool>, root: string) returns (ok: bool)
    requires root in PoolGraph(pools)
    ensures ok ==> !Leads(PoolGraph(pools), root, root)
    ensures !ok ==> !Acyclic(PoolGraph(pools))
  {
    hide PoolGraph, Leads, Reaches;
    ReachesSelf(PoolGraph(pools), root);
    var search := new CycleSearch(pools, root);
    ok := search.Detect(root);
  }

  lemma AcyclicByPools(pools: seq<TransportPool>)
    requires forall p :: p in pools && p.enabled ==> !Leads(PoolGraph(pools), p.id, p.id)
    ensures Acyclic(PoolGraph(pools))
  {
    hide Leads;
    forall id | id in PoolGraph(pools) ensures !Leads(PoolGraph(pools), id, id) {
      GraphOf(pools, id);
    }
  }

  // ------------------------------------------------------------------
  // Validity

  predicate ValidPolicyId(id: string) {
    0 < |id| <= 64 && forall i :: 0 <= i < |id| ==> AsciiAlphanumeric(id[i]) || id[i] in "-_"
  }

  predicate ValidDisplayName(name: string) {
    Trim(name) != [] && ByteLength(name) <= 80
  }

  predicate Available(profiles: seq<Profile>, name: string) {
    exists i :: 0 <= i < |profiles| && profiles[i].enabled && profiles[i].name == name
  }

  predicate Offers(profiles: seq<Profile>, capability: string) {
    exists i :: 0 <= i < |profiles| && profiles[i].enabled && profiles[i].protocolId == capability
  }

  predicate ValidMember(policy: ClientPolicy, profiles: seq<Profile>, member: PoolMember) {
    match member
    case ByProfile(name) => Available(profiles, name)
    case ByCapability(capability) => Offers(profiles, capability)
    case ByPool(id) => id in EnabledIds(policy.pools)
    case _ => true
  }

  function StripPrefix(s: string, prefix: string): (r: Option<string>)
    ensures r.Some? <==> exists rest :: s == prefix + rest
    ensures r.Some? ==> s == prefix + r.value
  {
    if |prefix| <= |s| && s[..|prefix|] == prefix then
      assert s == prefix + s[|prefix|..];
      Some(s[|prefix|..])
    else
      assert forall rest :: (prefix + rest)[..|prefix|] == prefix;
      None
  }

  predicate ValidUrl(url: string) {
    StripPrefix(url, "https://").Some? && ByteLength(url) <= 512 && !HasControl(url)
  }

  predicate ValidPool(policy: ClientPolicy, profiles: seq<Profile>, pool: TransportPool) {
    && pool.members != []
    && (forall i :: 0 <= i < |pool.members| ==> ValidMember(policy, profiles, pool.members[i]))
    && (pool.fallback.Some? ==> pool.fallback.value != pool.id && pool.fallback.value in EnabledIds(policy.pools))
    && pool.timeout != Some(0) && pool.interval != Some(0) && pool.maxFailures != Some(0) && pool.minimumHealthy != Some(0)
    && (pool.testUrl.Some? ==> ValidUrl(pool.testUrl.value))
    && (pool.strategy.Some? ==> pool.strategy.value in STRATEGIES)
  }

  predicate ValidTarget(policy: ClientPolicy, profiles: seq<Profile>, target: string) {
    || target == DIRECT || target == REJECT || target in EnabledIds(policy.pools) || Available(profiles, target)
    || (StripPrefix(target, CAPABILITY).Some? && Offers(profiles, StripPrefix(target, CAPABILITY).value))
  }

  predicate ValidRule(policy: ClientPolicy, profiles: seq<Profile>, rule: PolicyRule) {
    var condition := Trim(rule.condition);
    && condition != [] && '\n' !in rule.condition
    && (condition != MATCH ==> ClassicalRuleWithTarget(condition, rule.target).Some?)
    && ValidTarget(policy, profiles, rule.target)
  }

  ghost predicate DistinctPools(pools: seq<TransportPool>) {
    forall i, k :: 0 <= i < k < |pools| ==> pools[i].id != pools[k].id
  }

  ghost predicate DistinctRules(rules: seq<PolicyRule>) {
    forall i, k :: 0 <= i < k < |rules| ==> rules[i].id != rules[k].id
  }

  ghost predicate ValidPools(policy: ClientPolicy, profiles: seq<Profile>) {
    && DistinctPools(policy.pools)
    && (forall p :: p in policy.pools ==> ValidPolicyId(p.id) && ValidDisplayName(p.displayName))
    && (forall p :: p in policy.pools && p.enabled ==> ValidPool(policy, profiles, p))
    && Acyclic(PoolGraph(policy.pools))
  }

  ghost predicate ValidRules(policy: ClientPolicy, profiles: seq<Profile>) {
    && DistinctRules(policy.rules)
    && (forall r :: r in policy.rules ==> ValidPolicyId(r.id) && ValidDisplayName(r.displayName))
    && (forall r :: r in policy.rules && r.enabled ==> ValidRule(policy, profiles, r))
  }

  ghost predicate Valid(policy: ClientPolicy, profiles: seq<Profile>) {
    ValidPools(policy, profiles) && ValidRules(policy, profiles)
  }

  // ------------------------------------------------------------------
  // Validity, spelled out

  ghost predicate SoundName(id: string, name: string) {
    && 1 <= |id| <= 64
    && (forall i :: 0 <= i < |id| ==> 'a' <= id[i] <= 'z' || 'A' <= id[i] <= 'Z' || '0' <= id[i] <= '9' || id[i] == '-' || id[i] == '_')
    && (exists i :: 0 <= i < |name| && !IsSpace(name[i])) && ByteLength(name) <= 80
  }

  ghost predicate EnabledPoolNamed(policy: ClientPolicy, id: string) {
    exists p :: p in policy.pools && p.enabled && p.id == id
  }

  ghost predicate EnabledProfileNamed(profiles: seq<Profile>, name: string) {
    exists p :: p in profiles && p.enabled && p.name == name
  }

  ghost predicate EnabledProfileOf(profiles: seq<Profile>, protocol: string) {
    exists p :: p in profiles && p.enabled && p.protocolId == protocol
  }

  /** An enabled pool refers to what is there, has positive limits, a bounded HTTPS health URL and a known strategy. */
  ghost predicate SoundPool(policy: ClientPolicy, profiles: seq<Profile>, pool: TransportPool) {
    && pool.members != []
    && (forall name :: ByProfile(name) in pool.members ==> EnabledProfileNamed(profiles, name))
    && (forall protocol :: ByCapability(protocol) in pool.members ==> EnabledProfileOf(profiles, protocol))
    && (forall id :: ByPool(id) in pool.members ==> EnabledPoolNamed(policy, id))
    && (forall id :: pool.fallback == Some(id) ==> id != pool.id && EnabledPoolNamed(policy, id))
    && (forall limit: nat :: Some(limit) in {pool.timeout, pool.interval, pool.maxFailures, pool.minimumHealthy} ==> limit > 0)
    && (forall url :: pool.testUrl == Some(url) ==>
          (exists rest :: url == "https://" + rest) && ByteLength(url) <= 512 && forall c :: c in url ==> !IsControl(c))
    && (forall strategy :: pool.strategy == Some(strategy) ==>
          strategy == "round-robin" || strategy == "consistent-hashing" || strategy == "sticky-sessions")
  }

  /** An enabled rule is a catch-all or a condition that can be completed, on one line, with a target that is there. */
  ghost predicate SoundRule(policy: ClientPolicy, profiles: seq<Profile>, rule: PolicyRule) {
    && Trim(rule.condition) != [] && '\n' !in rule.condition
    && (Trim(rule.condition) == "MATCH" || Completable(Trim(rule.condition), rule.target))
    && (|| rule.target == "DIRECT" || rule.target == "REJECT" || EnabledPoolNamed(policy, rule.target)
        || EnabledProfileNamed(profiles, rule.target)
        || exists protocol :: rule.target == "capability:" + protocol && EnabledProfileOf(profiles, protocol))
  }

  /** The graph of pool members and fallbacks has an edge exactly where the first enabled pool of an ID refers to another. */
  ghost predicate RefersTo(pools: seq<TransportPool>, a: string, b: string) {
    exists i ::
      && 0 <= i < |pools| && pools[i].enabled && pools[i].id == a
      && (forall k :: 0 <= k < i ==> !(pools[k].enabled && pools[k].id == a))
      && (ByPool(b) in pools[i].members || pools[i].fallback == Some(b))
  }

  ghost predicate SoundPolicy(policy: ClientPolicy, profiles: seq<Profile>) {
    && (forall i, k :: 0 <= i < k < |policy.pools| ==> policy.pools[i].id != policy.pools[k].id)
    && (forall i, k :: 0 <= i < k < |policy.rules| ==> policy.rules[i].id != policy.rules[k].id)
    && (forall p :: p in policy.pools ==> SoundName(p.id, p.displayName) && (p.enabled ==> SoundPool(policy, profiles, p)))
    && (forall r :: r in policy.rules ==> SoundName(r.id, r.displayName) && (r.enabled ==> SoundRule(policy, profiles, r)))
    && Acyclic(PoolGraph(policy.pools))
  }

  lemma {:induction false} FindPoolIsFirst(pools: seq<TransportPool>, id: string) returns (i: nat)
    requires FindPool(pools, id).Some?
    ensures i < |pools| && FindPool(pools, id) == Some(pools[i]) && pools[i].enabled && pools[i].id == id
    ensures forall k :: 0 <= k < i ==> !(pools[k].enabled && pools[k].id == id)
  {
    if pools[0].enabled && pools[0].id == id {
      i := 0;
    } else {
      var n := FindPoolIsFirst(pools[1..], id);
      i := n + 1;
      assert forall k :: 0 < k < |pools| ==> pools[k] == pools[1..][k - 1];
    }
  }

  lemma PoolGraphMeans(pools: seq<TransportPool>, a: string, b: string)
    ensures Edge(PoolGraph(pools), a, b) <==> RefersTo(pools, a, b)
  {
    hide PoolGraph;
    GraphOf(pools, a);
    if FindPool(pools, a).Some? {
      var i := FindPoolIsFirst(pools, a);
      assert b in Children(pools[i]) <==> ByPool(b) in pools[i].members || pools[i].fallback == Some(b);
      if RefersTo(pools, a, b) {
        var n :| && 0 <= n < |pools| && pools[n].enabled && pools[n].id == a
                 && (forall k :: 0 <= k < n ==> !(pools[k].enabled && pools[k].id == a))
                 && (ByPool(b) in pools[n].members || pools[n].fallback == Some(b));
        assert n == i;
      }
    } else {
      forall n | 0 <= n < |pools|
        ensures !(pools[n].enabled && pools[n].id == a)
      {
        assert pools[n] in pools;
      }
    }
  }

  lemma NameIsSound(id: string, name: string)
    ensures ValidPolicyId(id) && ValidDisplayName(name) <==> SoundName(id, name)
  {
    hide ByteLength, Trim;
    TrimMeans(name);
    var pre, post :| name == pre + Trim(name) + post && AllSpace(pre) && AllSpace(post);
    if Trim(name) != [] {
      assert name[|pre|] == Trim(name)[0];
    }
  }

  lemma ReferencesAre(policy: ClientPolicy, profiles: seq<Profile>, name: string)
    ensures Available(profiles, name) <==> EnabledProfileNamed(profiles, name)
    ensures Offers(profiles, name) <==> EnabledProfileOf(profiles, name)
    ensures name in EnabledIds(policy.pools) <==> EnabledPoolNamed(policy, name)
  {
    if Available(profiles, name) {
      var i :| 0 <= i < |profiles| && profiles[i].enabled && profiles[i].name == name;
      assert profiles[i] in profiles;
    }
    if Offers(profiles, name) {
      var i :| 0 <= i < |profiles| && profiles[i].enabled && profiles[i].protocolId == name;
      assert profiles[i] in profiles;
    }
    if p :| p in profiles && p.enabled && (p.name == name || p.protocolId == name) {
      var i :| 0 <= i < |profiles| && profiles[i] == p;
    }
  }

  lemma MembersAreSound(policy: ClientPolicy, profiles: seq<Profile>, pool: TransportPool)
    ensures (forall i :: 0 <= i < |pool.members| ==> ValidMember(policy, profiles, pool.members[i])) <==>
              && (forall name :: ByProfile(name) in pool.members ==> EnabledProfileNamed(profiles, name))
              && (forall protocol :: ByCapability(protocol) in pool.members ==> EnabledProfileOf(profiles, protocol))
              && (forall id :: ByPool(id) in pool.members ==> EnabledPoolNamed(policy, id))
  {
    hide Available, Offers, EnabledProfileNamed, EnabledProfileOf, EnabledPoolNamed;
    forall name
      ensures Available(profiles, name) <==> EnabledProfileNamed(profiles, name)
      ensures Offers(profiles, name) <==> EnabledProfileOf(profiles, name)
      ensures name in EnabledIds(policy.pools) <==> EnabledPoolNamed(policy, name)
    {
      ReferencesAre(policy, profiles, name);
    }
    if forall i :: 0 <= i < |pool.members| ==> ValidMember(policy, profiles, pool.members[i]) {
      forall m | m in pool.members ensures ValidMember(policy, profiles, m) {
        var i :| 0 <= i < |pool.members| && pool.members[i] == m;
      }
      assert forall name :: ByProfile(name) in pool.members ==> ValidMember(policy, profiles, ByProfile(name));
      assert forall protocol :: ByCapability(protocol) in pool.members ==> ValidMember(policy, profiles, ByCapability(protocol));
      assert forall id :: ByPool(id) in pool.members ==> ValidMember(policy, profiles, ByPool(id));
    }
    forall i | 0 <= i < |pool.members| ensures pool.members[i] in pool.members {
    }
  }

  lemma PoolIsSound(policy: ClientPolicy, profiles: seq<Profile>, pool: TransportPool)
    ensures ValidPool(policy, profiles, pool) <==> SoundPool(policy, profiles, pool)
  {
    hide ValidMember, EnabledProfileNamed, EnabledProfileOf, EnabledPoolNamed, ByteLength, EnabledIds;
    MembersAreSound(policy, profiles, pool);
    if pool.fallback.Some? {
      ReferencesAre(policy, profiles, pool.fallback.value);
    }
  }

  lemma RuleIsSound(policy: ClientPolicy, profiles: seq<Profile>, rule: PolicyRule)
    ensures ValidRule(policy, profiles, rule) <==> SoundRule(policy, profiles, rule)
  {
    hide Available, Offers, EnabledProfileNamed, EnabledProfileOf, EnabledPoolNamed, Completable, ClassicalRuleWithTarget, Trim, EnabledIds, StripPrefix;
    CompletableExactly(Trim(rule.condition), rule.target);
    ReferencesAre(policy, profiles, rule.target);
    forall protocol | rule.target == "capability:" + protocol ensures StripPrefix(rule.target, CAPABILITY) == Some(protocol) {
      assert rule.target == CAPABILITY + protocol;
      assert CAPABILITY + StripPrefix(rule.target, CAPABILITY).value == CAPABILITY + protocol;
      assert protocol == rule.target[|CAPABILITY|..];
    }
    if StripPrefix(rule.target, CAPABILITY).Some? {
      ReferencesAre(policy, profiles, StripPrefix(rule.target, CAPABILITY).value);
    }
  }

  /** Validity, spelled out. */
  lemma ValidMeansSound(policy: ClientPolicy, profiles: seq<Profile>)
    ensures Valid(policy, profiles) <==> SoundPolicy(policy, profiles)
  {
    hide ValidPolicyId, ValidDisplayName, SoundName, ValidPool, SoundPool, ValidRule, SoundRule, PoolGraph;
    forall p | p in policy.pools
      ensures ValidPolicyId(p.id) && ValidDisplayName(p.displayName) <==> SoundName(p.id, p.displayName)
      ensures ValidPool(policy, profiles, p) <==> SoundPool(policy, profiles, p)
    {
      NameIsSound(p.id, p.displayName);
      PoolIsSound(policy, profiles, p);
    }
    forall r | r in policy.rules
      ensures ValidPolicyId(r.id) && ValidDisplayName(r.displayName) <==> SoundName(r.id, r.displayName)
      ensures ValidRule(policy, profiles, r) <==> SoundRule(policy, profiles, r)
    {
      NameIsSound(r.id, r.displayName);
      RuleIsSound(policy, profiles, r);
    }
  }

  /** Collecting into a set keeps one of each, so a size check finds duplicates. */
  lemma {:induction false} SetSize(ids: seq<string>)
    ensures |set id | id in ids| <= |ids|
    ensures |set id | id in ids| == |ids| <==> forall i, k :: 0 <= i < k < |ids| ==> ids[i] != ids[k]
  {
    if ids != [] {
      var n := |ids| - 1;
      SetSize(ids[..n]);
      assert ids == ids[..n] + [ids[n]];
      var rest := set id | id in ids[..n];
      assert (set id | id in ids) == rest + {ids[n]};
      if ids[n] in rest {
        assert (set id | id in ids) == rest;
        var k :| 0 <= k < n && ids[k] == ids[n];
      }
    }
  }

  function AllPoolIds(pools: seq<TransportPool>): (r: seq<string>)
    ensures |r| == |pools| && forall i :: 0 <= i < |r| ==> r[i] == pools[i].id
  {
    seq(|pools|, i requires 0 <= i < |pools| => pools[i].id)
  }

  function AllRuleIds(rules: seq<PolicyRule>): (r: seq<string>)
    ensures |r| == |rules| && forall i :: 0 <= i < |r| ==> r[i] == rules[i].id
  {
    seq(|rules|, i requires 0 <= i < |rules| => rules[i].id)
  }

  /** Rejects dangling references and pool cycles before subscription output. */
  method Validate(policy: ClientPolicy, profiles: seq<Profile>) returns (ok: bool)
    ensures ok <==> Valid(policy, profiles)
    ensures ok <==> SoundPolicy(policy, profiles)
  {
    hide SoundPolicy;
    ValidMeansSound(policy, profiles);
    hide PoolGraph, ValidRules, ValidPools;
    ok := ValidatePools(policy, profiles);
    if ok {
      ok := ValidateRules(policy, profiles);
    }
  }

  method ValidatePools(policy: ClientPolicy, profiles: seq<Profile>) returns (ok: bool)
    ensures ok <==> ValidPools(policy, profiles)
  {
    hide PoolGraph, ValidPool, ValidPolicyId, ValidDisplayName, Leads;
    var pools := policy.pools;
    var ids := AllPoolIds(pools);
    SetSize(ids);
    if |set id | id in ids| != |pools| {
      return false;
    }
    for i := 0 to |pools|
      invariant forall k :: 0 <= k < i ==> ValidPolicyId(pools[k].id) && ValidDisplayName(pools[k].displayName)
    {
      if !ValidPolicyId(pools[i].id) || !ValidDisplayName(pools[i].displayName) {
        assert pools[i] in policy.pools;
        return false;
      }
    }
    for i := 0 to |pools|
      invariant forall k :: 0 <= k < i && pools[k].enabled ==>
                  ValidPool(policy, profiles, pools[k]) && !Leads(PoolGraph(pools), pools[k].id, pools[k].id)
    {
      if pools[i].enabled {
        assert pools[i] in policy.pools;
        if !ValidPool(policy, profiles, pools[i]) {
          return false;
        }
        GraphOf(pools, pools[i].id);
        var clean := NoCycleFrom(pools, pools[i].id);
        if !clean {
          return false;
        }
      }
    }
    AcyclicByPools(pools);
    return true;
  }

  method ValidateRules(policy: ClientPolicy, profiles: seq<Profile>) returns (ok: bool)
    ensures ok <==> ValidRules(policy, profiles)
  {
    hide ValidRule, ValidPolicyId, ValidDisplayName;
    var rules := policy.rules;
    var ids := AllRuleIds(rules);
    SetSize(ids);
    if |set id | id in ids| != |rules| {
      return false;
    }
    for i := 0 to |rules|
      invariant forall k :: 0 <= k < i ==>
                  ValidPolicyId(rules[k].id) && ValidDisplayName(rules[k].displayName)
                  && (rules[k].enabled ==> ValidRule(policy, profiles, rules[k]))
    {
      assert rules[i] in policy.rules;
      if !ValidPolicyId(rules[i].id) || !ValidDisplayName(rules[i].displayName) {
        return false;
      }
      if rules[i].enabled && !ValidRule(policy, profiles, rules[i]) {
        return false;
      }
    }
    return true;
  }

  // ------------------------------------------------------------------
  // Resolved pools

  predicate Picks(p: Profile, member: PoolMember) {
    p.enabled
    && match member
       case ByCapability(capability) => p.protocolId == capability
       case ByRole(role) => p.role == role
       case ExceptRole(role) => p.role != role
       case AllProfiles => true
       case _ => false
  }

  function PickedNames(profiles: seq<Profile>, member: PoolMember): (r: seq<string>)
    ensures forall name :: name in r <==> exists p :: p in profiles && Picks(p, member) && p.name == name
  {
    if profiles == [] then []
    else
      assert profiles == [profiles[0]] + profiles[1..];
      (if Picks(profiles[0], member) then [profiles[0].name] else []) + PickedNames(profiles[1..], member)
  }

  /** What one selector stands for. */
  function Expand(profiles: seq<Profile>, member: PoolMember): seq<string> {
    match member
    case ByProfile(name) => [name]
    case ByPool(id) => [id]
    case Direct => [DIRECT]
    case Rejecting => [REJECT]
    case _ => PickedNames(profiles, member)
  }

  function ExpandAll(profiles: seq<Profile>, members: seq<PoolMember>): seq<string> {
    if members == [] then []
    else ExpandAll(profiles, members[..|members| - 1]) + Expand(profiles, members[|members| - 1])
  }

  /** The first occurrence of every name. */
  function FirstNames(names: seq<string>): seq<string> {
    if names == [] then []
    else
      var n := |names| - 1;
      FirstNames(names[..n]) + if names[n] in names[..n] then [] else [names[n]]
  }

  lemma {:induction false} FirstNamesDistinct(names: seq<string>)
    ensures forall x :: x in FirstNames(names) <==> x in names
    ensures NoDuplicates(FirstNames(names))
  {
    if names != [] {
      var n := |names| - 1;
      FirstNamesDistinct(names[..n]);
      assert names == names[..n] + [names[n]];
    }
  }

  datatype ResolvedPool = ResolvedPool(pool: TransportPool, members: seq<string>)

  function Resolve(profiles: seq<Profile>, pool: TransportPool): ResolvedPool {
    ResolvedPool(pool, FirstNames(ExpandAll(profiles, pool.members)))
  }

  /** The enabled pools with their members, unless one has none. */
  function ResolveEach(profiles: seq<Profile>, pools: seq<TransportPool>): Option<seq<ResolvedPool>> {
    if pools == [] then Some([])
    else
      var last := pools[|pools| - 1];
      match ResolveEach(profiles, pools[..|pools| - 1])
      case None => None
      case Some(r) =>
        if !last.enabled then Some(r)
        else if Resolve(profiles, last).members == [] then None
        else Some(r + [Resolve(profiles, last)])
  }

  method ResolvePools(policy: ClientPolicy, profiles: seq<Profile>) returns (r: Option<seq<ResolvedPool>>)
    ensures r == if Valid(policy, profiles) then ResolveEach(profiles, policy.pools) else None
    ensures r.Some? ==> PoolsFrom(profiles, policy.pools, r.value)
  {
    hide Valid, SoundPolicy, ExpandAll, FirstNames, PoolsFrom;
    var ok := Validate(policy, profiles);
    if !ok {
      return None;
    }
    if ResolveEach(profiles, policy.pools).Some? {
      ResolvedMean(profiles, policy.pools);
    }
    var pools := policy.pools;
    var resolved: seq<ResolvedPool> := [];
    for i := 0 to |pools|
      invariant ResolveEach(profiles, pools[..i]) == Some(resolved)
    {
      assert pools[..i + 1][..i] == pools[..i];
      if pools[i].enabled {
        var members := ExpandMembers(profiles, pools[i].members);
        members := RetainFirst(members);
        if members == [] {
          EmptyPoolStays(profiles, pools, i + 1);
          return None;
        }
        resolved := resolved + [ResolvedPool(pools[i], members)];
      }
    }
    assert pools[..|pools|] == pools;
    r := Some(resolved);
  }

  method ExpandMembers(profiles: seq<Profile>, members: seq<PoolMember>) returns (names: seq<string>)
    ensures names == ExpandAll(profiles, members)
  {
    hide Expand;
    names := [];
    for k := 0 to |members|
      invariant names == ExpandAll(profiles, members[..k])
    {
      assert members[..k + 1][..k] == members[..k];
      names := names + Expand(profiles, members[k]);
    }
    assert members[..|members|] == members;
  }

  method RetainFirst(names: seq<string>) returns (r: seq<string>)
    ensures r == FirstNames(names)
  {
    var seen: set<string> := {};
    r := [];
    for i := 0 to |names|
      invariant r == FirstNames(names[..i])
      invariant forall x :: x in seen <==> x in names[..i]
    {
      assert names[..i + 1][..i] == names[..i];
      if names[i] !in seen {
        r := r + [names[i]];
      }
      seen := seen + {names[i]};
    }
    assert names[..|names|] == names;
  }

  lemma {:induction false} EmptyPoolStays(profiles: seq<Profile>, pools: seq<TransportPool>, n: nat)
    requires n <= |pools| && ResolveEach(profiles, pools[..n]).None?
    ensures ResolveEach(profiles, pools).None?
  {
    hide Resolve;
    if n < |pools| {
      var k := |pools| - 1;
      assert pools[..k][..n] == pools[..n];
      EmptyPoolStays(profiles, pools[..k], n);
    } else {
      assert pools[..n] == pools;
    }
  }

  /** `name` is one of the things `member` selects. */
  ghost predicate Selects(profiles: seq<Profile>, member: PoolMember, name: string) {
    match member
    case ByProfile(id) => name == id
    case ByPool(id) => name == id
    case Direct => name == DIRECT
    case Rejecting => name == REJECT
    case _ => exists p :: p in profiles && Picks(p, member) && p.name == name
  }

  lemma {:induction false} ExpandAllSelects(profiles: seq<Profile>, members: seq<PoolMember>, name: string)
    ensures name in ExpandAll(profiles, members) <==> exists m :: m in members && Selects(profiles, m, name)
  {
    hide Selects, Expand;
    if members != [] {
      var n := |members| - 1;
      ExpandAllSelects(profiles, members[..n], name);
      assert members == members[..n] + [members[n]];
      ExpandSelects(profiles, members[n], name);
    }
  }

  lemma ExpandSelects(profiles: seq<Profile>, member: PoolMember, name: string)
    ensures name in Expand(profiles, member) <==> Selects(profiles, member, name)
  {
  }

  // ------------------------------------------------------------------
  // The order of members

  /** A place a member can come from: a selector, and a profile if the selector picks profiles. */
  datatype Spot = Spot(member: int, profile: int)

  predicate SpotBefore(a: Spot, b: Spot) {
    a.member < b.member || (a.member == b.member && a.profile < b.profile)
  }

  ghost predicate SpotsAscend(spots: seq<Spot>) {
    forall i, k :: 0 <= i < k < |spots| ==> SpotBefore(spots[i], spots[k])
  }

  /** The selector of `s` names `name` there. */
  ghost predicate NameAt(profiles: seq<Profile>, members: seq<PoolMember>, s: Spot, name: string) {
    && 0 <= s.member < |members|
    && match members[s.member]
       case ByProfile(id) => s.profile == 0 && name == id
       case ByPool(id) => s.profile == 0 && name == id
       case Direct => s.profile == 0 && name == "DIRECT"
       case Rejecting => s.profile == 0 && name == "REJECT"
       case ByCapability(capability) => EnabledAt(profiles, s.profile, name) && profiles[s.profile].protocolId == capability
       case ByRole(role) => EnabledAt(profiles, s.profile, name) && profiles[s.profile].role == role
       case ExceptRole(role) => EnabledAt(profiles, s.profile, name) && profiles[s.profile].role != role
       case AllProfiles => EnabledAt(profiles, s.profile, name)
  }

  ghost predicate EnabledAt(profiles: seq<Profile>, i: int, name: string) {
    0 <= i < |profiles| && profiles[i].enabled && profiles[i].name == name
  }

  lemma {:induction false} PickedAt(profiles: seq<Profile>, member: PoolMember) returns (at: seq<int>)
    ensures Listed(AllNames(profiles), PickedNames(profiles, member), at)
    ensures forall i :: i in at <==> 0 <= i < |profiles| && Picks(profiles[i], member)
  {
    hide Picks, Listed;
    if profiles == [] {
      at := [];
      ListedNothing<string>();
      assert AllNames(profiles) == [];
    } else {
      var rest := PickedAt(profiles[1..], member);
      at := ListedCons(profiles[0].name, AllNames(profiles[1..]), PickedNames(profiles[1..], member), rest, Picks(profiles[0], member));
      assert AllNames(profiles) == [profiles[0].name] + AllNames(profiles[1..]);
    }
  }

  ghost function AllNames(profiles: seq<Profile>): seq<string> {
    seq(|profiles|, i requires 0 <= i < |profiles| => profiles[i].name)
  }

  lemma MemberSpots(profiles: seq<Profile>, members: seq<PoolMember>, n: nat) returns (spots: seq<Spot>)
    requires n < |members|
    ensures |spots| == |Expand(profiles, members[n])| && SpotsAscend(spots)
    ensures forall k :: 0 <= k < |spots| ==> spots[k].member == n && NameAt(profiles, members, spots[k], Expand(profiles, members[n])[k])
    ensures forall s, name :: NameAt(profiles, members, s, name) && s.member == n ==> s in spots
  {
    var m := members[n];
    if m.ByProfile? || m.ByPool? || m.Direct? || m.Rejecting? {
      spots := [Spot(n, 0)];
    } else {
      var at := PickedAt(profiles, m);
      spots := seq(|at|, k requires 0 <= k < |at| => Spot(n, at[k]));
      forall k | 0 <= k < |spots| ensures NameAt(profiles, members, spots[k], Expand(profiles, m)[k]) {
        assert at[k] in at;
      }
      forall s, name | NameAt(profiles, members, s, name) && s.member == n ensures s in spots {
        assert s.profile in at;
        var k :| 0 <= k < |at| && at[k] == s.profile;
        assert spots[k] == s;
      }
    }
  }

  lemma {:induction false} ExpandedSpots(profiles: seq<Profile>, members: seq<PoolMember>, n: nat) returns (spots: seq<Spot>)
    requires n <= |members|
    ensures |spots| == |ExpandAll(profiles, members[..n])| && SpotsAscend(spots)
    ensures forall k :: 0 <= k < |spots| ==> 0 <= spots[k].member < n && NameAt(profiles, members, spots[k], ExpandAll(profiles, members[..n])[k])
    ensures forall s, name :: NameAt(profiles, members, s, name) && s.member < n ==> s in spots
  {
    hide NameAt, Expand;
    if n == 0 {
      spots := [];
      forall s, name | NameAt(profiles, members, s, name) ensures s.member >= 0 {
        SpotInRange(profiles, members, s, name);
      }
    } else {
      var before := ExpandedSpots(profiles, members, n - 1);
      var more := MemberSpots(profiles, members, n - 1);
      assert members[..n][..n - 1] == members[..n - 1];
      spots := before + more;
    }
  }

  lemma SpotInRange(profiles: seq<Profile>, members: seq<PoolMember>, s: Spot, name: string)
    requires NameAt(profiles, members, s, name)
    ensures 0 <= s.member < |members|
  {
  }

  /** The name at position `i` did not occur before. */
  predicate FirstThere(names: seq<string>, i: int)
    requires 0 <= i < |names|
  {
    names[i] !in names[..i]
  }

  lemma {:induction false} FirstNamesListed(names: seq<string>) returns (at: seq<int>)
    ensures Listed(names, FirstNames(names), at)
    ensures forall i :: i in at <==> 0 <= i < |names| && FirstThere(names, i)
  {
    if names == [] {
      at := [];
    } else {
      var n := |names| - 1;
      var before := FirstNamesListed(names[..n]);
      at := ListedSnoc(names[..n], names[n], FirstNames(names[..n]), before, FirstThere(names, n));
      assert names == names[..n] + [names[n]];
      forall i | 0 <= i < n ensures FirstThere(names[..n], i) == FirstThere(names, i) {
        assert names[..n][..i] == names[..i];
      }
      hide FirstThere;
    }
  }

  lemma {:induction false} FirstOfName(names: seq<string>, i: nat) returns (k: nat)
    requires i < |names|
    ensures k <= i && names[k] == names[i] && FirstThere(names, k)
    decreases i
  {
    if names[i] in names[..i] {
      var j :| 0 <= j < i && names[..i][j] == names[i];
      k := FirstOfName(names, j);
    } else {
      k := i;
    }
  }

  /** The members are the names at all spots, each name once, at the first spot that names it, in the order of the spots. */
  ghost predicate MembersFrom(profiles: seq<Profile>, selectors: seq<PoolMember>, members: seq<string>) {
    NoDuplicates(members) && exists spots :: SpottedAt(profiles, selectors, members, spots)
  }

  ghost predicate SpottedAt(profiles: seq<Profile>, selectors: seq<PoolMember>, members: seq<string>, spots: seq<Spot>) {
    && |spots| == |members| && SpotsAscend(spots)
    && (forall k :: 0 <= k < |members| ==> NameAt(profiles, selectors, spots[k], members[k]))
    && forall s, name :: NameAt(profiles, selectors, s, name) ==>
         exists k :: 0 <= k < |members| && members[k] == name && (spots[k] == s || SpotBefore(spots[k], s))
  }

  lemma MembersMean(profiles: seq<Profile>, pool: TransportPool)
    ensures MembersFrom(profiles, pool.members, Resolve(profiles, pool).members)
  {
    hide NameAt, ExpandAll, FirstNames, Expand, FirstThere;
    var names := ExpandAll(profiles, pool.members);
    var all := ExpandedSpots(profiles, pool.members, |pool.members|);
    assert pool.members[..|pool.members|] == pool.members;
    var at := FirstNamesListed(names);
    var members := FirstNames(names);
    FirstNamesDistinct(names);
    var spots := seq(|at|, k requires 0 <= k < |at| => all[at[k]]);
    forall s, name | NameAt(profiles, pool.members, s, name)
      ensures exists k :: 0 <= k < |members| && members[k] == name && (spots[k] == s || SpotBefore(spots[k], s))
    {
      SpotInRange(profiles, pool.members, s, name);
      var i :| 0 <= i < |all| && all[i] == s;
      OneNamePerSpot(profiles, pool.members, s, name, names[i]);
      var k := FirstListed(names, at, i);
      assert spots[k] == all[at[k]];
    }
    assert SpottedAt(profiles, pool.members, members, spots);
  }

  lemma FirstListed(names: seq<string>, at: seq<int>, i: nat) returns (k: nat)
    requires Listed(names, FirstNames(names), at) && i < |names|
    requires forall j :: j in at <==> 0 <= j < |names| && FirstThere(names, j)
    ensures k < |at| && at[k] <= i && FirstNames(names)[k] == names[i]
  {
    hide FirstNames;
    var j := FirstOfName(names, i);
    assert j in at;
    k :| 0 <= k < |at| && at[k] == j;
  }

  lemma OneNamePerSpot(profiles: seq<Profile>, members: seq<PoolMember>, s: Spot, a: string, b: string)
    requires NameAt(profiles, members, s, a) && NameAt(profiles, members, s, b)
    ensures a == b
  {
  }

  /** The resolved pools are the enabled ones in the given order, each with its members. */
  ghost predicate PoolsFrom(profiles: seq<Profile>, pools: seq<TransportPool>, resolved: seq<ResolvedPool>) {
    exists at: seq<int> ::
      && |at| == |resolved|
      && (forall i, k :: 0 <= i < k < |at| ==> at[i] < at[k])
      && (forall i :: i in at <==> 0 <= i < |pools| && pools[i].enabled)
      && forall k :: 0 <= k < |at| ==> at[k] in at && ResolvedFrom(profiles, pools[at[k]], resolved[k])
  }

  ghost predicate ResolvedFrom(profiles: seq<Profile>, pool: TransportPool, r: ResolvedPool) {
    r.pool == pool && r.members != [] && MembersFrom(profiles, pool.members, r.members)
  }

  lemma {:induction false} ResolvedInOrder(profiles: seq<Profile>, pools: seq<TransportPool>) returns (at: seq<int>)
    requires ResolveEach(profiles, pools).Some?
    ensures |at| == |ResolveEach(profiles, pools).value| && forall i, k :: 0 <= i < k < |at| ==> at[i] < at[k]
    ensures forall i :: i in at <==> 0 <= i < |pools| && pools[i].enabled
    ensures forall k :: 0 <= k < |at| ==> at[k] in at && 0 <= at[k] < |pools|
                                          && ResolvedFrom(profiles, pools[at[k]], ResolveEach(profiles, pools).value[k])
  {
    hide Resolve, MembersFrom;
    if pools == [] {
      at := [];
    } else {
      var n := |pools| - 1;
      var before := ResolvedInOrder(profiles, pools[..n]);
      at := before + (if pools[n].enabled then [n] else []);
      ResolveKeepsPool(profiles, pools[n]);
      MembersMean(profiles, pools[n]);
      assert forall i :: 0 <= i < n ==> pools[..n][i] == pools[i];
    }
  }

  lemma ResolvedMean(profiles: seq<Profile>, pools: seq<TransportPool>)
    requires ResolveEach(profiles, pools).Some?
    ensures PoolsFrom(profiles, pools, ResolveEach(profiles, pools).value)
  {
    hide ResolveEach, ResolvedFrom;
    var at := ResolvedInOrder(profiles, pools);
  }

  /** The name of something that can carry traffic. */
  predicate Usable(policy: ClientPolicy, profiles: seq<Profile>, name: string) {
    name == DIRECT || name == REJECT || name in EnabledIds(policy.pools) || Available(profiles, name)
  }

  /** Resolved members are exactly what the selectors select, each once, at least one, and all usable. */
  lemma ResolvedPoolsClosed(policy: ClientPolicy, profiles: seq<Profile>, k: nat)
    requires Valid(policy, profiles) && ResolveEach(profiles, policy.pools).Some?
    requires k < |ResolveEach(profiles, policy.pools).value|
    ensures var r := ResolveEach(profiles, policy.pools).value[k];
            && r.pool in policy.pools && r.pool.enabled && r.members != [] && NoDuplicates(r.members)
            && (forall name :: name in r.members <==> exists m :: m in r.pool.members && Selects(profiles, m, name))
            && forall name :: name in r.members ==> Usable(policy, profiles, name)
  {
    hide Selects, Valid, Usable, Resolve;
    ResolvedFromPools(profiles, policy.pools, k);
    var r := ResolveEach(profiles, policy.pools).value[k];
    ResolvedMembers(profiles, r.pool);
    forall name | name in r.members ensures Usable(policy, profiles, name) {
      var m :| m in r.pool.members && Selects(profiles, m, name);
      SelectedIsUsable(policy, profiles, r.pool, m, name);
    }
  }

  lemma ResolvedMembers(profiles: seq<Profile>, pool: TransportPool)
    ensures NoDuplicates(Resolve(profiles, pool).members)
    ensures forall name :: name in Resolve(profiles, pool).members <==>
              exists m :: m in pool.members && Selects(profiles, m, name)
  {
    hide Selects;
    FirstNamesDistinct(ExpandAll(profiles, pool.members));
    forall name ensures name in Resolve(profiles, pool).members <==> exists m :: m in pool.members && Selects(profiles, m, name) {
      ExpandAllSelects(profiles, pool.members, name);
    }
  }

  lemma {:induction false} ResolvedFromPools(profiles: seq<Profile>, pools: seq<TransportPool>, k: nat)
    requires ResolveEach(profiles, pools).Some? && k < |ResolveEach(profiles, pools).value|
    ensures var r := ResolveEach(profiles, pools).value[k];
            r.pool in pools && r.pool.enabled && r == Resolve(profiles, r.pool) && r.members != []
  {
    hide Resolve;
    var n := |pools| - 1;
    var head := ResolveEach(profiles, pools[..n]).value;
    if k < |head| {
      ResolvedFromPools(profiles, pools[..n], k);
    } else {
      assert Resolve(profiles, pools[n]).pool == pools[n] by {
        ResolveKeepsPool(profiles, pools[n]);
      }
    }
  }

  lemma ResolveKeepsPool(profiles: seq<Profile>, pool: TransportPool)
    ensures Resolve(profiles, pool).pool == pool
  {
  }

  lemma SelectedIsUsable(policy: ClientPolicy, profiles: seq<Profile>, pool: TransportPool, m: PoolMember, name: string)
    requires Valid(policy, profiles) && pool in policy.pools && pool.enabled && m in pool.members && Selects(profiles, m, name)
    ensures Usable(policy, profiles, name)
  {
    assert ValidPool(policy, profiles, pool);
    var i :| 0 <= i < |pool.members| && pool.members[i] == m;
    assert ValidMember(policy, profiles, pool.members[i]);
    if m.ByCapability? || m.ByRole? || m.ExceptRole? || m.AllProfiles? {
      var p :| p in profiles && Picks(p, m) && p.name == name;
      var k :| 0 <= k < |profiles| && profiles[k] == p;
      assert Available(profiles, name);
    }
  }

  ghost predicate SelectsSome(profiles: seq<Profile>, pool: TransportPool) {
    exists m, name :: m in pool.members && Selects(profiles, m, name)
  }

  lemma ResolvesToSome(profiles: seq<Profile>, pool: TransportPool)
    ensures Resolve(profiles, pool).members != [] <==> SelectsSome(profiles, pool)
  {
    hide Resolve, Selects;
    ResolvedMembers(profiles, pool);
    var members := Resolve(profiles, pool).members;
    if members != [] {
      var name := members[0];
      assert name in members;
      var m :| m in pool.members && Selects(profiles, m, name);
    }
    if SelectsSome(profiles, pool) {
      var m, name :| m in pool.members && Selects(profiles, m, name);
      assert name in members;
    }
  }

  /** Pools resolve if and only if every enabled one selects something. */
  lemma {:induction false} ResolvesExactly(profiles: seq<Profile>, pools: seq<TransportPool>)
    ensures ResolveEach(profiles, pools).Some? <==> forall p :: p in pools && p.enabled ==> SelectsSome(profiles, p)
  {
    hide Resolve, SelectsSome;
    if pools != [] {
      var n := |pools| - 1;
      ResolvesExactly(profiles, pools[..n]);
      assert pools == pools[..n] + [pools[n]];
      ResolvesToSome(profiles, pools[n]);
    }
  }

  // ------------------------------------------------------------------
  // Resolved rules

  datatype Order = ByPriority | ByPriorityAndId

  predicate Before(o: Order, a: PolicyRule, b: PolicyRule) {
    a.priority < b.priority || (o == ByPriorityAndId && a.priority == b.priority && Below(a.id, b.id))
  }

  function EnabledRules(rules: seq<PolicyRule>): (r: seq<PolicyRule>)
    ensures forall x :: x in r <==> x in rules && x.enabled
  {
    if rules == [] then []
    else
      assert rules == [rules[0]] + rules[1..];
      (if rules[0].enabled then [rules[0]] else []) + EnabledRules(rules[1..])
  }

  lemma {:induction false} EnabledRulesListed(rules: seq<PolicyRule>) returns (at: seq<int>)
    ensures Listed(rules, EnabledRules(rules), at) && forall i :: i in at <==> 0 <= i < |rules| && rules[i].enabled
  {
    if rules == [] {
      at := [];
    } else {
      var rest := EnabledRulesListed(rules[1..]);
      at := ListedCons(rules[0], rules[1..], EnabledRules(rules[1..]), rest, rules[0].enabled);
      assert rules == [rules[0]] + rules[1..];
    }
  }

  function InsertRule(o: Order, rule: PolicyRule, sorted: seq<PolicyRule>): (r: seq<PolicyRule>)
    ensures forall x :: x in r <==> x == rule || x in sorted
    ensures |r| == |sorted| + 1
  {
    if sorted == [] || !Before(o, sorted[0], rule) then [rule] + sorted
    else
      assert sorted == [sorted[0]] + sorted[1..];
      [sorted[0]] + InsertRule(o, rule, sorted[1..])
  }

  /** A stable sort. */
  function SortRules(o: Order, rules: seq<PolicyRule>): (r: seq<PolicyRule>)
    ensures forall x :: x in r <==> x in rules
    ensures |r| == |rules|
  {
    if rules == [] then []
    else
      assert rules == [rules[0]] + rules[1..];
      InsertRule(o, rules[0], SortRules(o, rules[1..]))
  }

  ghost predicate SortedBy(o: Order, rules: seq<PolicyRule>) {
    forall i, k :: 0 <= i < k < |rules| ==> !Before(o, rules[k], rules[i])
  }

  lemma BeforeTransitive(o: Order, a: PolicyRule, b: PolicyRule, c: PolicyRule)
    requires !Before(o, b, a) && !Before(o, c, b)
    ensures !Before(o, c, a)
  {
    if o == ByPriorityAndId && a.priority == b.priority == c.priority && Below(c.id, a.id) {
      BelowTotal(a.id, b.id);
      BelowTotal(b.id, c.id);
      if Below(b.id, c.id) {
        BelowTransitive(b.id, c.id, a.id);
      }
    }
  }

  lemma BeforeAsymmetric(o: Order, a: PolicyRule, b: PolicyRule)
    requires Before(o, a, b)
    ensures !Before(o, b, a)
  {
    BelowTotal(a.id, b.id);
  }

  lemma {:induction false} InsertKeepsSorted(o: Order, rule: PolicyRule, sorted: seq<PolicyRule>)
    requires SortedBy(o, sorted)
    ensures SortedBy(o, InsertRule(o, rule, sorted))
  {
    hide Before;
    var r := InsertRule(o, rule, sorted);
    if sorted == [] {
    } else if !Before(o, sorted[0], rule) {
      forall i, k | 0 <= i < k < |r| ensures !Before(o, r[k], r[i]) {
        if i == 0 && k > 1 {
          assert !Before(o, sorted[k - 1], sorted[0]);
          BeforeTransitive(o, rule, sorted[0], sorted[k - 1]);
        }
      }
    } else {
      InsertKeepsSorted(o, rule, sorted[1..]);
      var tail := InsertRule(o, rule, sorted[1..]);
      forall i, k | 0 <= i < k < |r| ensures !Before(o, r[k], r[i]) {
        assert r[k] == tail[k - 1];
        if i == 0 {
          assert tail[k - 1] in tail;
          if tail[k - 1] == rule {
            BeforeAsymmetric(o, sorted[0], rule);
          } else {
            var j :| 0 <= j < |sorted[1..]| && sorted[1..][j] == tail[k - 1];
            assert sorted[j + 1] == tail[k - 1];
          }
        } else {
          assert r[i] == tail[i - 1];
        }
      }
    }
  }

  lemma {:induction false} SortRulesSorts(o: Order, rules: seq<PolicyRule>)
    ensures SortedBy(o, SortRules(o, rules))
  {
    if rules != [] {
      SortRulesSorts(o, rules[1..]);
      InsertKeepsSorted(o, rules[0], SortRules(o, rules[1..]));
    }
  }

  /** Position `i` goes before position `k`: it has to, or it may and came first. */
  ghost predicate Earlier(o: Order, rules: seq<PolicyRule>, i: int, k: int)
    requires 0 <= i < |rules| && 0 <= k < |rules|
  {
    Before(o, rules[i], rules[k]) || (!Before(o, rules[k], rules[i]) && i < k)
  }

  /** `sorted` are the rules at all positions, each once, the earlier ones first. */
  ghost predicate SortedAt(o: Order, rules: seq<PolicyRule>, sorted: seq<PolicyRule>, at: seq<int>) {
    && |at| == |sorted| == |rules| && (forall i :: i in at <==> 0 <= i < |rules|)
    && (forall k :: 0 <= k < |at| ==> 0 <= at[k] < |rules| && sorted[k] == rules[at[k]])
    && forall i, k :: 0 <= i < k < |at| ==> Earlier(o, rules, at[i], at[k])
  }

  lemma {:induction false} InsertedAt(o: Order, rule: PolicyRule, sorted: seq<PolicyRule>) returns (p: nat)
    requires SortedBy(o, sorted)
    ensures p <= |sorted| && InsertRule(o, rule, sorted) == sorted[..p] + [rule] + sorted[p..]
    ensures forall x :: 0 <= x < p ==> Before(o, sorted[x], rule)
    ensures forall x :: p <= x < |sorted| ==> !Before(o, sorted[x], rule)
  {
    hide Before;
    if sorted == [] || !Before(o, sorted[0], rule) {
      p := 0;
      forall x | 0 < x < |sorted| ensures !Before(o, sorted[x], rule) {
        BeforeTransitive(o, rule, sorted[0], sorted[x]);
      }
    } else {
      var q := InsertedAt(o, rule, sorted[1..]);
      p := q + 1;
      assert forall x :: 0 < x < |sorted| ==> sorted[x] == sorted[1..][x - 1];
      assert sorted[..p] == [sorted[0]] + sorted[1..][..q] && sorted[p..] == sorted[1..][q..];
    }
  }

  lemma {:induction false} SortPositions(o: Order, rules: seq<PolicyRule>) returns (at: seq<int>)
    ensures SortedAt(o, rules, SortRules(o, rules), at)
  {
    if rules == [] {
      at := [];
    } else {
      var rest, sorted := rules[1..], SortRules(o, rules[1..]);
      var before := SortPositions(o, rest);
      SortRulesSorts(o, rest);
      var p := InsertedAt(o, rules[0], sorted);
      var shifted := seq(|before|, k requires 0 <= k < |before| => before[k] + 1);
      at := shifted[..p] + [0] + shifted[p..];
      ShiftedPositions(o, rules, sorted, before, shifted, p, at);
    }
  }

  lemma ShiftedPositions(o: Order, rules: seq<PolicyRule>, sorted: seq<PolicyRule>, before: seq<int>, shifted: seq<int>, p: nat, at: seq<int>)
    requires rules != [] && SortedAt(o, rules[1..], sorted, before) && p <= |sorted|
    requires |shifted| == |before| && forall k :: 0 <= k < |before| ==> shifted[k] == before[k] + 1
    requires forall x :: 0 <= x < p ==> Before(o, sorted[x], rules[0])
    requires forall x :: p <= x < |sorted| ==> !Before(o, sorted[x], rules[0])
    requires at == shifted[..p] + [0] + shifted[p..]
    ensures SortedAt(o, rules, sorted[..p] + [rules[0]] + sorted[p..], at)
  {
    hide Before;
    forall k | 0 <= k < |shifted| ensures 0 < shifted[k] < |rules| && rules[shifted[k]] == sorted[k] {
      assert rules[1..][before[k]] == rules[shifted[k]];
    }
    forall i, k | 0 <= i < k < |shifted| ensures Earlier(o, rules, shifted[i], shifted[k]) {
      assert Earlier(o, rules[1..], before[i], before[k]);
    }
    forall i ensures i in at <==> 0 <= i < |rules| {
      InsertedMembers(shifted, p, at, i);
      ShiftedMembers(before, shifted, i);
    }
    InsertedInOrder(o, rules, shifted, p, at);
  }

  lemma InsertedInOrder(o: Order, rules: seq<PolicyRule>, shifted: seq<int>, p: nat, at: seq<int>)
    requires rules != [] && p <= |shifted| && at == shifted[..p] + [0] + shifted[p..]
    requires forall k :: 0 <= k < |shifted| ==> 0 < shifted[k] < |rules| && (Before(o, rules[shifted[k]], rules[0]) <==> k < p)
    requires forall i, k :: 0 <= i < k < |shifted| ==> Earlier(o, rules, shifted[i], shifted[k])
    ensures forall i, k :: 0 <= i < k < |at| ==> 0 <= at[i] < |rules| && 0 <= at[k] < |rules| && Earlier(o, rules, at[i], at[k])
  {
    hide Before;
    forall i, k | 0 <= i < k < |at| ensures 0 <= at[i] < |rules| && 0 <= at[k] < |rules| && Earlier(o, rules, at[i], at[k]) {
      if k < p {
        assert at[i] == shifted[i] && at[k] == shifted[k];
      } else if k == p {
        assert at[i] == shifted[i] && at[k] == 0;
      } else if i < p {
        assert at[i] == shifted[i] && at[k] == shifted[k - 1];
      } else if i == p {
        assert at[i] == 0 && at[k] == shifted[k - 1];
      } else {
        assert at[i] == shifted[i - 1] && at[k] == shifted[k - 1];
      }
    }
  }

  lemma InsertedMembers(shifted: seq<int>, p: nat, at: seq<int>, i: int)
    requires p <= |shifted| && at == shifted[..p] + [0] + shifted[p..]
    ensures i in at <==> i == 0 || i in shifted
  {
    assert shifted == shifted[..p] + shifted[p..];
  }

  lemma ShiftedMembers(before: seq<int>, shifted: seq<int>, i: int)
    requires |shifted| == |before| && forall k :: 0 <= k < |before| ==> shifted[k] == before[k] + 1
    ensures i in shifted <==> i - 1 in before
  {
    if i - 1 in before {
      var k :| 0 <= k < |before| && before[k] == i - 1;
      assert shifted[k] == i;
    }
  }

  /** The rules at all enabled positions, each once, the earlier ones first. */
  ghost predicate RulesAt(o: Order, rules: seq<PolicyRule>, sorted: seq<PolicyRule>, pos: seq<int>) {
    && |pos| == |sorted|
    && (forall i :: i in pos <==> 0 <= i < |rules| && rules[i].enabled)
    && (forall k :: 0 <= k < |pos| ==> 0 <= pos[k] < |rules| && sorted[k] == rules[pos[k]])
    && forall i, k :: 0 <= i < k < |pos| ==> Earlier(o, rules, pos[i], pos[k])
  }

  lemma OrderedRulesAt(o: Order, rules: seq<PolicyRule>) returns (pos: seq<int>)
    ensures RulesAt(o, rules, SortRules(o, EnabledRules(rules)), pos)
  {
    hide Before, EnabledRules, SortRules;
    var enabled := EnabledRules(rules);
    var at := EnabledRulesListed(rules);
    var perm := SortPositions(o, enabled);
    pos := Composed(at, perm);
    forall i, k | 0 <= i < k < |pos| ensures Earlier(o, rules, pos[i], pos[k]) {
      assert Earlier(o, enabled, perm[i], perm[k]);
    }
  }

  lemma Composed(at: seq<int>, perm: seq<int>) returns (pos: seq<int>)
    requires forall i :: i in perm <==> 0 <= i < |at|
    ensures |pos| == |perm| && forall k :: 0 <= k < |perm| ==> 0 <= perm[k] < |at| && pos[k] == at[perm[k]]
    ensures forall i :: i in pos <==> i in at
  {
    assert forall k :: 0 <= k < |perm| ==> perm[k] in perm;
    pos := seq(|perm|, k requires 0 <= k < |perm| => at[perm[k]]);
    forall i ensures i in pos <==> i in at {
      if i in at {
        var k :| 0 <= k < |at| && at[k] == i;
        assert k in perm;
        var m :| 0 <= m < |perm| && perm[m] == k;
        assert pos[m] == i;
      }
    }
  }

  ghost predicate Precedes(rules: seq<PolicyRule>, a: PolicyRule, b: PolicyRule) {
    exists i, k :: 0 <= i < k < |rules| && rules[i] == a && rules[k] == b
  }

  lemma PrecedesAt(rules: seq<PolicyRule>, i: nat, k: nat)
    requires i < k < |rules|
    ensures Precedes(rules, rules[i], rules[k])
  {
  }

  lemma PrecedesBehind(first: PolicyRule, tail: seq<PolicyRule>, a: PolicyRule, b: PolicyRule)
    requires Precedes(tail, a, b)
    ensures Precedes([first] + tail, a, b)
  {
    var x, y :| 0 <= x < y < |tail| && tail[x] == a && tail[y] == b;
    var r := [first] + tail;
    assert r[x + 1] == a && r[y + 1] == b;
  }

  lemma {:induction false} InsertKeepsPrecedes(o: Order, rule: PolicyRule, sorted: seq<PolicyRule>, a: PolicyRule, b: PolicyRule)
    requires Precedes(sorted, a, b)
    ensures Precedes(InsertRule(o, rule, sorted), a, b)
  {
    hide Before;
    var i, k :| 0 <= i < k < |sorted| && sorted[i] == a && sorted[k] == b;
    var r := InsertRule(o, rule, sorted);
    if !Before(o, sorted[0], rule) {
      assert r[i + 1] == a && r[k + 1] == b;
    } else if i == 0 {
      var tail := InsertRule(o, rule, sorted[1..]);
      assert sorted[1..][k - 1] == b && b in tail;
      var m :| 0 <= m < |tail| && tail[m] == b;
      assert r[0] == a && r[m + 1] == b;
    } else {
      assert sorted[1..][i - 1] == a && sorted[1..][k - 1] == b;
      InsertKeepsPrecedes(o, rule, sorted[1..], a, b);
      PrecedesBehind(sorted[0], InsertRule(o, rule, sorted[1..]), a, b);
    }
  }

  /** A new rule goes before everything it does not have to follow. */
  lemma {:induction false} InsertedPrecedes(o: Order, rule: PolicyRule, sorted: seq<PolicyRule>, b: PolicyRule)
    requires SortedBy(o, sorted) && b in sorted && !Before(o, b, rule)
    ensures Precedes(InsertRule(o, rule, sorted), rule, b)
  {
    hide Before, Precedes;
    var k :| 0 <= k < |sorted| && sorted[k] == b;
    var r := InsertRule(o, rule, sorted);
    if !Before(o, sorted[0], rule) {
      assert r[0] == rule && r[k + 1] == b;
      PrecedesAt(r, 0, k + 1);
    } else {
      assert k > 0;
      assert sorted[1..][k - 1] == b;
      InsertedPrecedes(o, rule, sorted[1..], b);
      PrecedesBehind(sorted[0], InsertRule(o, rule, sorted[1..]), rule, b);
    }
  }

  /** The sort is stable. */
  lemma {:induction false} SortRulesStable(o: Order, rules: seq<PolicyRule>, i: nat, k: nat)
    requires i < k < |rules| && !Before(o, rules[k], rules[i])
    ensures Precedes(SortRules(o, rules), rules[i], rules[k])
  {
    hide Before;
    var tail := SortRules(o, rules[1..]);
    SortRulesSorts(o, rules[1..]);
    if i == 0 {
      assert rules[1..][k - 1] == rules[k];
      InsertedPrecedes(o, rules[0], tail, rules[k]);
    } else {
      SortRulesStable(o, rules[1..], i - 1, k - 1);
      InsertKeepsPrecedes(o, rules[0], tail, rules[i], rules[k]);
    }
  }

  /** Equal priorities come in ID order. */
  ghost predicate TiesInIdOrder(rules: seq<PolicyRule>) {
    forall i, k :: 0 <= i < k < |rules| && rules[i].priority == rules[k].priority ==> !Below(rules[k].id, rules[i].id)
  }

  /** Sorting by priority alone and by priority and ID agree if and only if ties come in ID order. */
  lemma SortsAgreeExactly(rules: seq<PolicyRule>)
    ensures SortRules(ByPriority, rules) == SortRules(ByPriorityAndId, rules) <==> TiesInIdOrder(rules)
  {
    if TiesInIdOrder(rules) {
      SortsAgree(rules);
    }
    if SortRules(ByPriority, rules) == SortRules(ByPriorityAndId, rules) {
      var sorted := SortRules(ByPriority, rules);
      SortRulesSorts(ByPriorityAndId, rules);
      forall i, k | 0 <= i < k < |rules| && rules[i].priority == rules[k].priority
        ensures !Below(rules[k].id, rules[i].id)
      {
        SortRulesStable(ByPriority, rules, i, k);
        var x, y :| 0 <= x < y < |sorted| && sorted[x] == rules[i] && sorted[y] == rules[k];
        assert !Before(ByPriorityAndId, sorted[y], sorted[x]);
      }
    }
  }

  lemma {:induction false} SortsAgree(rules: seq<PolicyRule>)
    requires TiesInIdOrder(rules)
    ensures SortRules(ByPriority, rules) == SortRules(ByPriorityAndId, rules)
  {
    if rules != [] {
      SortsAgree(rules[1..]);
      var tail := SortRules(ByPriority, rules[1..]);
      forall x | x in tail ensures x.priority == rules[0].priority ==> !Below(x.id, rules[0].id) {
        var k :| 0 <= k < |rules[1..]| && rules[1..][k] == x;
        assert rules[k + 1] == x;
      }
      InsertsAgree(rules[0], tail);
    }
  }

  lemma {:induction false} InsertsAgree(rule: PolicyRule, sorted: seq<PolicyRule>)
    requires forall x :: x in sorted && x.priority == rule.priority ==> !Below(x.id, rule.id)
    ensures InsertRule(ByPriority, rule, sorted) == InsertRule(ByPriorityAndId, rule, sorted)
  {
    if sorted != [] {
      InsertsAgree(rule, sorted[1..]);
    }
  }

  lemma SortedHasOrderedTies(rules: seq<PolicyRule>)
    requires SortedBy(ByPriorityAndId, rules)
    ensures TiesInIdOrder(rules)
  {
    hide Below;
  }

  /** Rules as loaded from storage, ordered by priority and ID, keep their order; so do the enabled ones. */
  lemma {:induction false} LoadOrderHasOrderedTies(rules: seq<PolicyRule>)
    requires SortedBy(ByPriorityAndId, rules)
    ensures TiesInIdOrder(EnabledRules(rules)) && SortedBy(ByPriorityAndId, EnabledRules(rules))
  {
    hide Before, TiesInIdOrder;
    if rules == [] {
      SortedHasOrderedTies([]);
    } else {
      LoadOrderHasOrderedTies(rules[1..]);
      var rest := EnabledRules(rules[1..]);
      forall x | x in rest ensures !Before(ByPriorityAndId, x, rules[0]) {
        var k :| 0 <= k < |rules[1..]| && rules[1..][k] == x;
        assert rules[k + 1] == x;
      }
      assert [] + rest == rest;
      SortedHasOrderedTies(EnabledRules(rules));
    }
  }

  lemma {:induction false} SortOfSorted(o: Order, rules: seq<PolicyRule>)
    requires SortedBy(o, rules)
    ensures SortRules(o, rules) == rules
  {
    if rules != [] {
      SortOfSorted(o, rules[1..]);
      assert |rules| > 1 ==> !Before(o, rules[1], rules[0]);
      assert rules == [rules[0]] + rules[1..];
    }
  }

  function FirstOffering(profiles: seq<Profile>, capability: string): (r: Option<Profile>)
    ensures r.Some? <==> Offers(profiles, capability)
    ensures r.Some? ==> r.value in profiles && r.value.enabled && r.value.protocolId == capability
  {
    if profiles == [] then None
    else if profiles[0].enabled && profiles[0].protocolId == capability then Some(profiles[0])
    else
      assert forall i :: 0 < i < |profiles| ==> profiles[i] == profiles[1..][i - 1];
      assert Offers(profiles[1..], capability) ==> Offers(profiles, capability) by {
        if Offers(profiles[1..], capability) {
          var i :| 0 <= i < |profiles[1..]| && profiles[1..][i].enabled && profiles[1..][i].protocolId == capability;
          assert profiles[i + 1].enabled;
        }
      }
      FirstOffering(profiles[1..], capability)
  }

  /** The first enabled profile that offers it. */
  lemma {:induction false} FirstOfferingIsFirst(profiles: seq<Profile>, capability: string) returns (i: nat)
    requires FirstOffering(profiles, capability).Some?
    ensures i < |profiles| && FirstOffering(profiles, capability) == Some(profiles[i])
    ensures forall k :: 0 <= k < i ==> !(profiles[k].enabled && profiles[k].protocolId == capability)
  {
    if profiles[0].enabled && profiles[0].protocolId == capability {
      i := 0;
    } else {
      var n := FirstOfferingIsFirst(profiles[1..], capability);
      i := n + 1;
      assert forall k :: 0 < k < |profiles| ==> profiles[k] == profiles[1..][k - 1];
    }
  }

  /** `target` is what the written target of a rule stands for. */
  ghost predicate StandsFor(profiles: seq<Profile>, written: string, target: string) {
    && (forall capability :: written == "capability:" + capability ==>
          exists i :: 0 <= i < |profiles| && OffersFirst(profiles, capability, i) && profiles[i].name == target)
    && ((forall capability :: written != "capability:" + capability) ==> target == written)
  }

  ghost predicate OffersFirst(profiles: seq<Profile>, capability: string, i: int)
    requires 0 <= i < |profiles|
  {
    && profiles[i].enabled && profiles[i].protocolId == capability
    && forall k :: 0 <= k < i ==> !(profiles[k].enabled && profiles[k].protocolId == capability)
  }

  datatype ResolvedRule = ResolvedRule(condition: string, target: string)

  /** A capability target becomes the first enabled profile that offers it. */
  function TargetOf(profiles: seq<Profile>, target: string): Option<string> {
    match StripPrefix(target, CAPABILITY)
    case None => Some(target)
    case Some(capability) =>
      match FirstOffering(profiles, capability)
      case None => None
      case Some(p) => Some(p.name)
  }

  lemma TargetStandsFor(profiles: seq<Profile>, written: string)
    requires TargetOf(profiles, written).Some?
    ensures StandsFor(profiles, written, TargetOf(profiles, written).value)
  {
    hide FirstOffering;
    forall capability | written == "capability:" + capability
      ensures exists i :: 0 <= i < |profiles| && OffersFirst(profiles, capability, i) && profiles[i].name == TargetOf(profiles, written).value
    {
      assert written == CAPABILITY + capability;
      assert StripPrefix(written, CAPABILITY).Some?;
      assert CAPABILITY + StripPrefix(written, CAPABILITY).value == CAPABILITY + capability;
      assert capability == written[|CAPABILITY|..];
      var i := FirstOfferingIsFirst(profiles, capability);
      assert OffersFirst(profiles, capability, i);
    }
  }

  function Targeted(profiles: seq<Profile>, rules: seq<PolicyRule>): Option<seq<ResolvedRule>> {
    if rules == [] then Some([])
    else
      var last := rules[|rules| - 1];
      match (Targeted(profiles, rules[..|rules| - 1]), TargetOf(profiles, last.target))
      case (Some(r), Some(target)) => Some(r + [ResolvedRule(last.condition, target)])
      case _ => None
  }

  /** A capability target is offered by an enabled profile. */
  predicate Offered(profiles: seq<Profile>, target: string) {
    StripPrefix(target, CAPABILITY).Some? ==> Offers(profiles, StripPrefix(target, CAPABILITY).value)
  }

  ghost predicate TargetsOffered(policy: ClientPolicy, profiles: seq<Profile>) {
    forall x :: x in policy.rules && x.enabled ==> Offered(profiles, x.target)
  }

  /** Resolution succeeds for valid policies, unless a profile is named like a capability nobody offers. */
  method ResolveRules(policy: ClientPolicy, profiles: seq<Profile>) returns (r: Option<seq<ResolvedRule>>)
    ensures r == if Valid(policy, profiles) then Targeted(profiles, SortRules(ByPriority, EnabledRules(policy.rules))) else None
    ensures r.Some? <==> Valid(policy, profiles) && TargetsOffered(policy, profiles)
  {
    hide Valid, Targeted, Offered;
    var ok := Validate(policy, profiles);
    if !ok {
      return None;
    }
    var rules := SortRules(ByPriority, EnabledRules(policy.rules));
    TargetedExactly(profiles, rules);
    r := MapTargets(profiles, rules);
  }

  method MapTargets(profiles: seq<Profile>, rules: seq<PolicyRule>) returns (r: Option<seq<ResolvedRule>>)
    ensures r == Targeted(profiles, rules)
  {
    hide TargetOf, Offered;
    TargetedExactly(profiles, rules);
    var resolved: seq<ResolvedRule> := [];
    for i := 0 to |rules|
      invariant Targeted(profiles, rules[..i]) == Some(resolved)
    {
      assert rules[..i + 1][..i] == rules[..i];
      assert rules[i] in rules;
      OfferedTarget(profiles, rules[i].target);
      var target := TargetOf(profiles, rules[i].target);
      if target.None? {
        return None;
      }
      resolved := resolved + [ResolvedRule(rules[i].condition, target.value)];
    }
    assert rules[..|rules|] == rules;
    r := Some(resolved);
  }

  lemma CapabilityX()
    ensures StripPrefix("capability:x", CAPABILITY) == Some("x")
  {
    assert "capability:x" == CAPABILITY + "x";
  }

  /** One catch-all rule is a valid policy if its target is a valid one. */
  lemma MatchRuleIsValid(profiles: seq<Profile>, rule: PolicyRule)
    requires rule.id == rule.displayName == "r" && rule.enabled && rule.condition == MATCH
    requires ValidTarget(ClientPolicy([], [rule]), profiles, rule.target)
    ensures Valid(ClientPolicy([], [rule]), profiles)
  {
    hide ValidTarget, PoolGraph;
    assert Trim(MATCH) == MATCH && Trim("r") == "r" && ByteLength("r") == 1;
    AcyclicByPools([]);
  }

  /** A profile named like a capability that nobody offers makes its rule valid but not resolvable. */
  lemma UnofferedWitness(policy: ClientPolicy, profile: Profile)
    requires profile.enabled && profile.name == "capability:x" && profile.protocolId == "y"
    requires policy == ClientPolicy([], [PolicyRule("r", "r", true, 0, MATCH, "capability:x")])
    ensures Valid(policy, [profile]) && !TargetsOffered(policy, [profile])
  {
    hide Valid, StripPrefix;
    var rule := policy.rules[0];
    CapabilityX();
    assert Available([profile], "capability:x") by {
      assert [profile][0].enabled;
    }
    MatchRuleIsValid([profile], rule);
    assert !Offers([profile], "x");
    assert rule in policy.rules;
  }

  lemma OfferedTarget(profiles: seq<Profile>, target: string)
    ensures TargetOf(profiles, target).Some? <==> Offered(profiles, target)
  {
  }

  lemma {:induction false} TargetedExactly(profiles: seq<Profile>, rules: seq<PolicyRule>)
    ensures Targeted(profiles, rules).Some? <==> forall x :: x in rules ==> Offered(profiles, x.target)
    ensures Targeted(profiles, rules).Some? ==> |Targeted(profiles, rules).value| == |rules|
    ensures Targeted(profiles, rules).Some? ==>
              forall i :: 0 <= i < |rules| ==>
                TargetOf(profiles, rules[i].target).Some?
                && Targeted(profiles, rules).value[i] == ResolvedRule(rules[i].condition, TargetOf(profiles, rules[i].target).value)
  {
    hide TargetOf, Offered;
    if rules != [] {
      var n := |rules| - 1;
      TargetedExactly(profiles, rules[..n]);
      assert rules == rules[..n] + [rules[n]];
      OfferedTarget(profiles, rules[n].target);
    }
  }

  /** Resolved targets of a valid policy are usable. */
  lemma ResolvedTargetUsable(policy: ClientPolicy, profiles: seq<Profile>, rule: PolicyRule)
    requires Valid(policy, profiles) && rule in policy.rules && rule.enabled && Offered(profiles, rule.target)
    ensures TargetOf(profiles, rule.target).Some? && Usable(policy, profiles, TargetOf(profiles, rule.target).value)
  {
    hide ValidPools, DistinctRules, ClassicalRuleWithTarget, ValidDisplayName, ValidPolicyId;
    assert ValidRule(policy, profiles, rule);
    OfferedTarget(profiles, rule.target);
  }
}
