/** Graph validation, plan building and the core-removal guard of the reconciler. */
module Planning {
  import opened Prelude
  import opened Text
  import opened Desired
  import opened Adapter
  import Infrastructure

  /** A protocol adapter: what it needs and what it renders for the server side. */
  datatype Protocol = Protocol(
    required: set<string>, validates: (nat, Config) -> bool,
    render: (Profile, seq<SubscriptionUser>) -> Option<ServerFragment>)

  function EnabledProfiles(profiles: seq<Profile>): (r: seq<Profile>)
    ensures forall p :: p in r <==> p in profiles && p.enabled
  {
    if profiles == [] then []
    else
      assert profiles == [profiles[0]] + profiles[1..];
      (if profiles[0].enabled then [profiles[0]] else []) + EnabledProfiles(profiles[1..])
  }

  lemma {:induction false} EnabledProfilesListed(profiles: seq<Profile>) returns (at: seq<int>)
    ensures Listed(profiles, EnabledProfiles(profiles), at) && forall i :: i in at <==> 0 <= i < |profiles| && profiles[i].enabled
  {
    if profiles == [] {
      at := [];
    } else {
      var rest := EnabledProfilesListed(profiles[1..]);
      at := ListedCons(profiles[0], profiles[1..], EnabledProfiles(profiles[1..]), rest, profiles[0].enabled);
      assert profiles == [profiles[0]] + profiles[1..];
    }
  }

  ghost predicate Served(protocols: map<string, Protocol>, cores: seq<Core>, p: Profile) {
    p.protocolId in protocols
    && exists a :: Selects(cores, protocols[p.protocolId].required, p.preferredCore, a)
  }

  /** The desired state can be placed on the registered runtimes. */
  ghost predicate Accepts(protocols: map<string, Protocol>, cores: seq<Core>, desired: DesiredState, applied: AppliedState) {
    && Infrastructure.WellFormed(desired.infrastructure)
    && (forall p :: p in desired.profiles && p.enabled ==> Served(protocols, cores, p))
    && (forall r :: r in desired.infrastructure && r.enabled ==> Lookup(cores, r.adapterId).Some?)
    && (forall c :: c in applied.activeCoreIds ==> Lookup(cores, c).Some?)
  }

  // ------------------------------------------------------------------
  // Plans

  type Contribution = (CoreId, ServerFragment)

  function InfrastructureFragment(r: InfrastructureResource): ServerFragment {
    ServerFragment(r.resourceId, r.config, None, r.listeners)
  }

  /** The fragment of one enabled profile and the core that serves it. */
  ghost predicate ProfileContributes(protocols: map<string, Protocol>, cores: seq<Core>, users: seq<SubscriptionUser>,
                                     p: Profile, e: Contribution) {
    && p.protocolId in protocols
    && protocols[p.protocolId].validates(p.schemaVersion, p.config)
    && protocols[p.protocolId].render(p, users) == Some(e.1)
    && exists a :: Selects(cores, protocols[p.protocolId].required, p.preferredCore, a) && a.id == e.0
  }

  ghost predicate ProfileFails(protocols: map<string, Protocol>, cores: seq<Core>, users: seq<SubscriptionUser>, p: Profile) {
    forall e :: !ProfileContributes(protocols, cores, users, p, e)
  }

  ghost predicate AnyProfileFails(protocols: map<string, Protocol>, cores: seq<Core>, desired: DesiredState) {
    exists p :: p in EnabledProfiles(desired.profiles) && ProfileFails(protocols, cores, desired.users, p)
  }

  ghost predicate ResourceFails(cores: seq<Core>, r: InfrastructureResource) {
    forall e :: !ResourceContributes(cores, r, e)
  }

  predicate ResourceContributes(cores: seq<Core>, r: InfrastructureResource, e: Contribution) {
    && ValidResourceId(r.resourceId) && r.schemaVersion > 0 && r.configIsObject
    && Lookup(cores, r.adapterId).Some?
    && e == (r.adapterId, InfrastructureFragment(r))
  }

  /** The fragments of all enabled profiles and then all enabled resources, in desired order. */
  ghost predicate Contributions(protocols: map<string, Protocol>, cores: seq<Core>, desired: DesiredState,
                                cs: seq<Contribution>) {
    var profiles := EnabledProfiles(desired.profiles);
    var resources := Infrastructure.Enabled(desired.infrastructure);
    && |cs| == |profiles| + |resources|
    && (forall i :: 0 <= i < |profiles| ==> ProfileContributes(protocols, cores, desired.users, profiles[i], cs[i]))
    && (forall i :: 0 <= i < |resources| ==> ResourceContributes(cores, resources[i], cs[|profiles| + i]))
  }

  function FragmentsOf(cs: seq<Contribution>, c: CoreId): seq<ServerFragment> {
    if cs == [] then []
    else FragmentsOf(cs[..|cs| - 1], c) + (if cs[|cs| - 1].0 == c then [cs[|cs| - 1].1] else [])
  }

  predicate Owns(cs: seq<Contribution>, c: CoreId) {
    exists i :: 0 <= i < |cs| && cs[i].0 == c
  }

  ghost predicate SortedPlans(plans: seq<CorePlan>) {
    forall i, k :: 0 <= i < k < |plans| ==> Below(plans[i].coreId, plans[k].coreId)
  }

  function Find(plans: seq<CorePlan>, c: CoreId): (r: Option<CorePlan>)
    ensures r.Some? ==> r.value in plans && r.value.coreId == c
    ensures r.None? ==> forall p :: p in plans ==> p.coreId != c
  {
    if plans == [] then None else if plans[0].coreId == c then Some(plans[0]) else Find(plans[1..], c)
  }

  /** One plan per core that has fragments or was active before, with its fragments in order. */
  ghost predicate PlanSet(plans: seq<CorePlan>, generation: nat, cs: seq<Contribution>, active: seq<CoreId>) {
    && SortedPlans(plans)
    && forall c :: Find(plans, c) ==
                     if Owns(cs, c) || c in active then Some(CorePlan(generation, c, FragmentsOf(cs, c))) else None
  }

  ghost predicate PlansFor(protocols: map<string, Protocol>, cores: seq<Core>, desired: DesiredState,
                           applied: AppliedState, plans: seq<CorePlan>) {
    (exists cs :: Contributions(protocols, cores, desired, cs) && PlanSet(plans, desired.generation, cs, applied.activeCoreIds))
    && forall c :: c in applied.activeCoreIds ==> Lookup(cores, c).Some?
  }

  /** `entry(id).or_insert(..)` followed by pushing `extra`. */
  function Push(plans: seq<CorePlan>, generation: nat, id: CoreId, extra: seq<ServerFragment>): seq<CorePlan> {
    if plans == [] || Below(id, plans[0].coreId) then [CorePlan(generation, id, extra)] + plans
    else if plans[0].coreId == id then [plans[0].(fragments := plans[0].fragments + extra)] + plans[1..]
    else [plans[0]] + Push(plans[1..], generation, id, extra)
  }

  lemma {:induction false} PushUpdates(plans: seq<CorePlan>, generation: nat, id: CoreId, extra: seq<ServerFragment>)
    requires SortedPlans(plans)
    ensures var r := Push(plans, generation, id, extra);
            SortedPlans(r)
            && (forall p :: p in r ==> p.coreId == id || p in plans)
            && forall c :: Find(r, c) ==
                 if c != id then Find(plans, c)
                 else match Find(plans, id)
                   case Some(p) => Some(p.(fragments := p.fragments + extra))
                   case None => Some(CorePlan(generation, id, extra))
  {
    if plans != [] {
      BelowTotal(id, plans[0].coreId);
      if Below(id, plans[0].coreId) {
        forall k | 0 <= k < |plans| ensures Below(id, plans[k].coreId) {
          if k > 0 {
            BelowTransitive(id, plans[0].coreId, plans[k].coreId);
          }
        }
        forall p | p in plans ensures p.coreId != id {
          BelowTotal(id, id);
        }
      } else if plans[0].coreId != id {
        PushUpdates(plans[1..], generation, id, extra);
        var tail := Push(plans[1..], generation, id, extra);
        forall k | 0 <= k < |tail| ensures Below(plans[0].coreId, tail[k].coreId) {
          if tail[k].coreId != id {
            assert tail[k] in plans[1..];
          }
        }
      }
    }
  }

  lemma PushContribution(plans: seq<CorePlan>, generation: nat, cs: seq<Contribution>, e: Contribution)
    requires PlanSet(plans, generation, cs, [])
    ensures PlanSet(Push(plans, generation, e.0, [e.1]), generation, cs + [e], [])
  {
    PushUpdates(plans, generation, e.0, [e.1]);
    assert (cs + [e])[..|cs|] == cs;
    forall c ensures Owns(cs + [e], c) <==> Owns(cs, c) || c == e.0 {
      if Owns(cs, c) {
        var i :| 0 <= i < |cs| && cs[i].0 == c;
        assert (cs + [e])[i].0 == c;
      }
      assert (cs + [e])[|cs|] == e;
    }
    NoFragmentsUnlessOwned(cs, e.0);
    var r := Push(plans, generation, e.0, [e.1]);
    forall c ensures Find(r, c) == if Owns(cs + [e], c) then Some(CorePlan(generation, c, FragmentsOf(cs + [e], c))) else None {
      assert (cs + [e])[|cs + [e]| - 1] == e;
      assert FragmentsOf(cs + [e], c) == FragmentsOf(cs, c) + (if e.0 == c then [e.1] else []);
      assert Find(plans, c) == if Owns(cs, c) then Some(CorePlan(generation, c, FragmentsOf(cs, c))) else None;
      assert FragmentsOf(cs, c) + [] == FragmentsOf(cs, c);
      if c == e.0 && !Owns(cs, c) {
        assert FragmentsOf(cs, c) + [e.1] == [e.1];
      }
    }
  }

  lemma {:induction false} NoFragmentsUnlessOwned(cs: seq<Contribution>, c: CoreId)
    ensures FragmentsOf(cs, c) != [] <==> Owns(cs, c)
  {
    if cs != [] {
      var n := |cs| - 1;
      NoFragmentsUnlessOwned(cs[..n], c);
      if Owns(cs[..n], c) {
        var i :| 0 <= i < n && cs[..n][i].0 == c;
        assert cs[i].0 == c;
      }
    }
  }

  lemma PushActive(plans: seq<CorePlan>, generation: nat, cs: seq<Contribution>, active: seq<CoreId>, c: CoreId)
    requires PlanSet(plans, generation, cs, active)
    ensures PlanSet(if Find(plans, c).Some? then plans else Push(plans, generation, c, []), generation, cs, active + [c])
  {
    PushUpdates(plans, generation, c, []);
    NoFragmentsUnlessOwned(cs, c);
  }

  lemma PlannedHasReason(plans: seq<CorePlan>, generation: nat, cs: seq<Contribution>, active: seq<CoreId>, c: CoreId)
    requires PlanSet(plans, generation, cs, active) && Find(plans, c).Some?
    ensures Owns(cs, c) || c in active
  {
  }

  /** What the plans of a desired state mean for its cores. */
  lemma PlanMeaning(protocols: map<string, Protocol>, cores: seq<Core>, desired: DesiredState,
                    applied: AppliedState, plans: seq<CorePlan>)
    requires PlansFor(protocols, cores, desired, applied, plans)
    ensures forall i, k :: 0 <= i < k < |plans| ==> plans[i].coreId != plans[k].coreId
    ensures forall p :: p in plans ==> p.generation == desired.generation && Lookup(cores, p.coreId).Some?
    ensures forall c :: c in applied.activeCoreIds ==> exists p :: p in plans && p.coreId == c
  {
    var cs :| Contributions(protocols, cores, desired, cs) && PlanSet(plans, desired.generation, cs, applied.activeCoreIds);
    forall i, k | 0 <= i < k < |plans| ensures plans[i].coreId != plans[k].coreId {
      BelowTotal(plans[i].coreId, plans[k].coreId);
    }
    forall p | p in plans ensures p.generation == desired.generation && Lookup(cores, p.coreId).Some? {
      FoundIsItself(plans, p);
      if Owns(cs, p.coreId) {
        OwnersRegistered(protocols, cores, desired, cs, p.coreId);
      }
    }
    forall c | c in applied.activeCoreIds ensures exists p :: p in plans && p.coreId == c {
      assert Find(plans, c).Some?;
    }
  }

  /** The desired state needs core `c`: a profile or resource that is enabled contributes a fragment to it. */
  ghost predicate Needed(protocols: map<string, Protocol>, cores: seq<Core>, desired: DesiredState, c: CoreId) {
    || (exists p, e :: p in desired.profiles && p.enabled && ProfileContributes(protocols, cores, desired.users, p, e) && e.0 == c)
    || (exists r, e :: r in desired.infrastructure && r.enabled && ResourceContributes(cores, r, e) && e.0 == c)
  }

  lemma OwnedIsNeeded(protocols: map<string, Protocol>, cores: seq<Core>, desired: DesiredState, cs: seq<Contribution>, c: CoreId)
    requires Contributions(protocols, cores, desired, cs) && Owns(cs, c)
    ensures Needed(protocols, cores, desired, c)
  {
    hide ProfileContributes, ResourceContributes;
    var profiles := EnabledProfiles(desired.profiles);
    var resources := Infrastructure.Enabled(desired.infrastructure);
    var i :| 0 <= i < |cs| && cs[i].0 == c;
    if i < |profiles| {
      assert profiles[i] in profiles;
    } else {
      var n := i - |profiles|;
      assert resources[n] in resources && ResourceContributes(cores, resources[n], cs[|profiles| + n]);
    }
  }

  lemma NeededIsOwned(protocols: map<string, Protocol>, cores: seq<Core>, desired: DesiredState, cs: seq<Contribution>, c: CoreId)
    requires Sorted(cores) && Contributions(protocols, cores, desired, cs) && Needed(protocols, cores, desired, c)
    ensures Owns(cs, c)
  {
    hide ProfileContributes, ResourceContributes, Contributions;
    if p, e :| p in desired.profiles && p.enabled && ProfileContributes(protocols, cores, desired.users, p, e) && e.0 == c {
      ProfileOwns(protocols, cores, desired, cs, p, e);
    } else {
      var r, e :| r in desired.infrastructure && r.enabled && ResourceContributes(cores, r, e) && e.0 == c;
      ResourceOwns(protocols, cores, desired, cs, r, e);
    }
  }

  lemma ProfileOwns(protocols: map<string, Protocol>, cores: seq<Core>, desired: DesiredState, cs: seq<Contribution>,
                    p: Profile, e: Contribution)
    requires Sorted(cores) && Contributions(protocols, cores, desired, cs)
    requires p in desired.profiles && p.enabled && ProfileContributes(protocols, cores, desired.users, p, e)
    ensures Owns(cs, e.0)
  {
    hide ProfileContributes, ResourceContributes;
    var profiles := EnabledProfiles(desired.profiles);
    var i :| 0 <= i < |profiles| && profiles[i] == p;
    SameContribution(protocols, cores, desired.users, p, e, cs[i]);
  }

  lemma ResourceOwns(protocols: map<string, Protocol>, cores: seq<Core>, desired: DesiredState, cs: seq<Contribution>,
                     r: InfrastructureResource, e: Contribution)
    requires Contributions(protocols, cores, desired, cs)
    requires r in desired.infrastructure && r.enabled && ResourceContributes(cores, r, e)
    ensures Owns(cs, e.0)
  {
    hide ProfileContributes;
    var n := |EnabledProfiles(desired.profiles)|;
    var resources := Infrastructure.Enabled(desired.infrastructure);
    var k :| 0 <= k < |resources| && resources[k] == r;
    assert ResourceContributes(cores, resources[k], cs[n + k]);
  }

  lemma SameContribution(protocols: map<string, Protocol>, cores: seq<Core>, users: seq<SubscriptionUser>, p: Profile,
                         e: Contribution, f: Contribution)
    requires Sorted(cores) && ProfileContributes(protocols, cores, users, p, e) && ProfileContributes(protocols, cores, users, p, f)
    ensures e == f
  {
    var required := protocols[p.protocolId].required;
    var a :| Selects(cores, required, p.preferredCore, a) && a.id == e.0;
    var b :| Selects(cores, required, p.preferredCore, b) && b.id == f.0;
    if p.preferredCore.None? {
      ChosenUnique(cores, required, Ok(Some(a)), Ok(Some(b)));
    }
  }

  /** A core has a plan if and only if the desired state needs it or it was active, and its plan has
      fragments if and only if the desired state needs it. */
  lemma PlanReasons(protocols: map<string, Protocol>, cores: seq<Core>, desired: DesiredState,
                    applied: AppliedState, plans: seq<CorePlan>)
    requires Sorted(cores) && PlansFor(protocols, cores, desired, applied, plans)
    ensures forall c :: (exists p :: p in plans && p.coreId == c) <==>
                          Needed(protocols, cores, desired, c) || c in applied.activeCoreIds
    ensures forall p :: p in plans ==> (p.fragments != [] <==> Needed(protocols, cores, desired, p.coreId))
  {
    hide Needed, Contributions, Owns;
    var cs :| Contributions(protocols, cores, desired, cs) && PlanSet(plans, desired.generation, cs, applied.activeCoreIds);
    forall c ensures Owns(cs, c) <==> Needed(protocols, cores, desired, c) {
      if Owns(cs, c) {
        OwnedIsNeeded(protocols, cores, desired, cs, c);
      } else if Needed(protocols, cores, desired, c) {
        NeededIsOwned(protocols, cores, desired, cs, c);
      }
    }
    forall c ensures (exists p :: p in plans && p.coreId == c) <==> Owns(cs, c) || c in applied.activeCoreIds {
      assert Find(plans, c).Some? <==> Owns(cs, c) || c in applied.activeCoreIds;
    }
    forall p | p in plans ensures p.fragments != [] <==> Owns(cs, p.coreId) {
      FoundIsItself(plans, p);
      NoFragmentsUnlessOwned(cs, p.coreId);
    }
  }

  lemma FoundIsItself(plans: seq<CorePlan>, p: CorePlan)
    requires SortedPlans(plans) && p in plans
    ensures Find(plans, p.coreId) == Some(p)
  {
    var q := Find(plans, p.coreId).value;
    var i :| 0 <= i < |plans| && plans[i] == p;
    var k :| 0 <= k < |plans| && plans[k] == q;
    BelowTotal(plans[i].coreId, plans[k].coreId);
  }

  /** The plans are a function of the desired and the applied state. */
  lemma PlansUnique(protocols: map<string, Protocol>, cores: seq<Core>, desired: DesiredState,
                    applied: AppliedState, p: seq<CorePlan>, q: seq<CorePlan>)
    requires Sorted(cores) && PlansFor(protocols, cores, desired, applied, p) && PlansFor(protocols, cores, desired, applied, q)
    ensures p == q
  {
    var cs :| Contributions(protocols, cores, desired, cs) && PlanSet(p, desired.generation, cs, applied.activeCoreIds);
    var ds :| Contributions(protocols, cores, desired, ds) && PlanSet(q, desired.generation, ds, applied.activeCoreIds);
    forall i | 0 <= i < |cs| ensures cs[i] == ds[i] {
      ContributionUnique(protocols, cores, desired, cs, ds, i);
    }
    assert cs == ds;
    SortedUnique(p, q);
  }

  lemma ContributionUnique(protocols: map<string, Protocol>, cores: seq<Core>, desired: DesiredState,
                           cs: seq<Contribution>, ds: seq<Contribution>, i: nat)
    requires Sorted(cores) && Contributions(protocols, cores, desired, cs) && Contributions(protocols, cores, desired, ds)
    requires i < |cs|
    ensures cs[i] == ds[i]
  {
    var profiles := EnabledProfiles(desired.profiles);
    if i < |profiles| {
      SameContribution(protocols, cores, desired.users, profiles[i], cs[i], ds[i]);
    } else {
      var n := i - |profiles|;
      assert ResourceContributes(cores, Infrastructure.Enabled(desired.infrastructure)[n], cs[|profiles| + n]);
      assert ResourceContributes(cores, Infrastructure.Enabled(desired.infrastructure)[n], ds[|profiles| + n]);
    }
  }

  /** Two ordered plan lists with the same entries are equal. */
  lemma {:induction false} SortedUnique(p: seq<CorePlan>, q: seq<CorePlan>)
    requires SortedPlans(p) && SortedPlans(q) && forall c :: Find(p, c) == Find(q, c)
    ensures p == q
  {
    NonemptyFinds(p);
    NonemptyFinds(q);
    if p != [] && q != [] {
      FirstIsLeast(p, q);
      FirstIsLeast(q, p);
      BelowTotal(p[0].coreId, q[0].coreId);
      assert Find(p, p[0].coreId) == Some(p[0]) && Find(q, q[0].coreId) == Some(q[0]);
      forall c ensures Find(p[1..], c) == Find(q[1..], c) {
        FirstNotInRest(p);
        FirstNotInRest(q);
        assert Find(p, c) == Find(q, c);
      }
      SortedUnique(p[1..], q[1..]);
      assert p == [p[0]] + p[1..] && q == [q[0]] + q[1..];
    }
  }

  lemma NonemptyFinds(p: seq<CorePlan>)
    ensures p != [] <==> exists c :: Find(p, c).Some?
  {
    if p != [] {
      assert Find(p, p[0].coreId).Some?;
    }
  }

  lemma FirstIsLeast(p: seq<CorePlan>, q: seq<CorePlan>)
    requires p != [] && q != [] && SortedPlans(p) && Find(p, q[0].coreId).Some?
    ensures p[0].coreId == q[0].coreId || Below(p[0].coreId, q[0].coreId)
  {
    var r := Find(p, q[0].coreId).value;
    var k :| 0 <= k < |p| && p[k] == r;
  }

  lemma FirstNotInRest(p: seq<CorePlan>)
    requires p != [] && SortedPlans(p)
    ensures Find(p[1..], p[0].coreId).None?
  {
    forall x | x in p[1..] ensures x.coreId != p[0].coreId {
      var k :| 0 <= k < |p[1..]| && p[1..][k] == x;
      BelowTotal(p[0].coreId, p[k + 1].coreId);
    }
  }

  lemma OwnersRegistered(protocols: map<string, Protocol>, cores: seq<Core>, desired: DesiredState,
                         cs: seq<Contribution>, c: CoreId)
    requires Contributions(protocols, cores, desired, cs) && Owns(cs, c)
    ensures Lookup(cores, c).Some?
  {
    var i :| 0 <= i < |cs| && cs[i].0 == c;
    var n := |EnabledProfiles(desired.profiles)|;
    if i >= n {
      assert ResourceContributes(cores, Infrastructure.Enabled(desired.infrastructure)[i - n], cs[n + (i - n)]);
    }
  }

  // ------------------------------------------------------------------

  class Planner {
    const protocols: map<string, Protocol>
    const cores: CoreRegistry

    constructor (protocols: map<string, Protocol>, cores: CoreRegistry)
      ensures this.protocols == protocols && this.cores == cores
    {
      this.protocols, this.cores := protocols, cores;
    }

    method ValidateGraph(desired: DesiredState, applied: AppliedState) returns (ok: bool)
      requires cores.Valid()
      ensures ok <==> Accepts(protocols, cores.adapters, desired, applied)
    {
      ok := Infrastructure.ValidateDependencies(desired.infrastructure);
      if !ok {
        return false;
      }
      for i := 0 to |desired.profiles|
        invariant forall k :: 0 <= k < i && desired.profiles[k].enabled ==> Served(protocols, cores.adapters, desired.profiles[k])
      {
        var p := desired.profiles[i];
        if p.enabled {
          if p.protocolId !in protocols {
            return false;
          }
          var core := cores.Select(protocols[p.protocolId].required, p.preferredCore);
          if core.Err? || core.value.None? {
            NotServed(protocols, cores.adapters, p, core);
            return false;
          }
          assert Selects(cores.adapters, protocols[p.protocolId].required, p.preferredCore, core.value.value);
        }
      }
      for i := 0 to |desired.infrastructure|
        invariant forall k :: 0 <= k < i && desired.infrastructure[k].enabled ==>
                    Lookup(cores.adapters, desired.infrastructure[k].adapterId).Some?
      {
        if desired.infrastructure[i].enabled && Lookup(cores.adapters, desired.infrastructure[i].adapterId).None? {
          return false;
        }
      }
      for i := 0 to |applied.activeCoreIds|
        invariant forall k :: 0 <= k < i ==> Lookup(cores.adapters, applied.activeCoreIds[k]).Some?
      {
        if Lookup(cores.adapters, applied.activeCoreIds[i]).None? {
          return false;
        }
      }
      return true;
    }

    method ProfilePlans(desired: DesiredState) returns (r: Option<seq<CorePlan>>, ghost cs: seq<Contribution>)
      requires cores.Valid()
      ensures var profiles := EnabledProfiles(desired.profiles);
              if r.Some? then
                |cs| == |profiles| && PlanSet(r.value, desired.generation, cs, [])
                && forall k :: 0 <= k < |profiles| ==> ProfileContributes(protocols, cores.adapters, desired.users, profiles[k], cs[k])
              else
                AnyProfileFails(protocols, cores.adapters, desired)
    {
      var profiles := EnabledProfiles(desired.profiles);
      var plans: seq<CorePlan> := [];
      cs := [];
      for i := 0 to |profiles|
        invariant |cs| == i && PlanSet(plans, desired.generation, cs, [])
        invariant forall k :: 0 <= k < i ==> ProfileContributes(protocols, cores.adapters, desired.users, profiles[k], cs[k])
      {
        var p := profiles[i];
        if p.protocolId !in protocols {
          assert AnyProfileFails(protocols, cores.adapters, desired) by {
            assert ProfileFails(protocols, cores.adapters, desired.users, profiles[i]);
          }
          return None, cs;
        }
        if !protocols[p.protocolId].validates(p.schemaVersion, p.config) {
          assert ProfileFails(protocols, cores.adapters, desired.users, profiles[i]);
          return None, cs;
        }
        var core := cores.Select(protocols[p.protocolId].required, p.preferredCore);
        if core.Err? || core.value.None? {
          NotServed(protocols, cores.adapters, p, core);
          assert ProfileFails(protocols, cores.adapters, desired.users, EnabledProfiles(desired.profiles)[i]);
          return None, cs;
        }
        assert Selects(cores.adapters, protocols[p.protocolId].required, p.preferredCore, core.value.value);
        var fragment := protocols[p.protocolId].render(p, desired.users);
        if fragment.None? {
          assert ProfileFails(protocols, cores.adapters, desired.users, EnabledProfiles(desired.profiles)[i]);
          return None, cs;
        }
        var e := (core.value.value.id, fragment.value);
        PushContribution(plans, desired.generation, cs, e);
        assert ProfileContributes(protocols, cores.adapters, desired.users, p, e);
        plans := Push(plans, desired.generation, e.0, [e.1]);
        cs := cs + [e];
      }
      return Some(plans), cs;
    }

    method ResourcePlans(desired: DesiredState, start: seq<CorePlan>, ghost before: seq<Contribution>)
      returns (r: Option<seq<CorePlan>>, ghost cs: seq<Contribution>)
      requires cores.Valid() && PlanSet(start, desired.generation, before, [])
      ensures var resources := Infrastructure.Enabled(desired.infrastructure);
              if r.Some? then
                |cs| == |resources| && PlanSet(r.value, desired.generation, before + cs, [])
                && forall k :: 0 <= k < |resources| ==> ResourceContributes(cores.adapters, resources[k], cs[k])
              else
                exists k :: 0 <= k < |resources| && ResourceFails(cores.adapters, resources[k])
    {
      var resources := Infrastructure.Enabled(desired.infrastructure);
      var plans := start;
      cs := [];
      assert before + cs == before;
      for i := 0 to |resources|
        invariant |cs| == i && PlanSet(plans, desired.generation, before + cs, [])
        invariant forall k :: 0 <= k < i ==> ResourceContributes(cores.adapters, resources[k], cs[k])
      {
        var q := resources[i];
        if !ValidResourceId(q.resourceId) || q.schemaVersion == 0 || !q.configIsObject
           || Lookup(cores.adapters, q.adapterId).None? {
          assert ResourceFails(cores.adapters, Infrastructure.Enabled(desired.infrastructure)[i]);
          return None, cs;
        }
        var e := (q.adapterId, InfrastructureFragment(q));
        PushContribution(plans, desired.generation, before + cs, e);
        assert before + cs + [e] == before + (cs + [e]);
        plans := Push(plans, desired.generation, e.0, [e.1]);
        cs := cs + [e];
      }
      return Some(plans), cs;
    }

    /** Adds an empty plan for every core that was active and has no plan yet. */
    method KeepActive(start: seq<CorePlan>, generation: nat, ghost cs: seq<Contribution>, active: seq<CoreId>)
      returns (r: Option<seq<CorePlan>>)
      requires cores.Valid() && PlanSet(start, generation, cs, [])
      requires forall c :: Owns(cs, c) ==> Lookup(cores.adapters, c).Some?
      ensures r.Some? <==> forall c :: c in active ==> Lookup(cores.adapters, c).Some?
      ensures r.Some? ==> PlanSet(r.value, generation, cs, active)
    {
      hide PlanSet;
      var plans := start;
      assert active[..0] == [];
      for i := 0 to |active|
        invariant PlanSet(plans, generation, cs, active[..i])
        invariant forall k :: 0 <= k < i ==> Lookup(cores.adapters, active[k]).Some?
      {
        PushActive(plans, generation, cs, active[..i], active[i]);
        assert active[..i] + [active[i]] == active[..i + 1];
        if Find(plans, active[i]).None? {
          if Lookup(cores.adapters, active[i]).None? {
            assert active[i] in active;
            return None;
          }
          plans := Push(plans, generation, active[i], []);
        } else {
          PlannedHasReason(plans, generation, cs, active[..i], active[i]);
        }
      }
      assert active[..|active|] == active;
      return Some(plans);
    }

    /** The plans of the enabled profiles and resources plus an empty plan for every core that
        was active and is no longer needed. */
    method BuildPlans(desired: DesiredState, applied: AppliedState) returns (r: Option<seq<CorePlan>>)
      requires cores.Valid()
      ensures r.Some? ==> PlansFor(protocols, cores.adapters, desired, applied, r.value)
      ensures r.None? ==> !exists plans :: PlansFor(protocols, cores.adapters, desired, applied, plans)
    {
      ghost var cs, rest;
      r, cs := ProfilePlans(desired);
      if r.None? {
        NoContributions(desired);
        return;
      }
      r, rest := ResourcePlans(desired, r.value, cs);
      if r.None? {
        NoContributions(desired);
        return;
      }
      ContributionsFit(desired, cs, rest);
      r := KeepActive(r.value, desired.generation, cs + rest, applied.activeCoreIds);
    }

    lemma NoContributions(desired: DesiredState)
      requires var resources := Infrastructure.Enabled(desired.infrastructure);
               || AnyProfileFails(protocols, cores.adapters, desired)
               || (exists k :: 0 <= k < |resources| && ResourceFails(cores.adapters, resources[k]))
      ensures forall cs :: !Contributions(protocols, cores.adapters, desired, cs)
    {
    }

    lemma ContributionsFit(desired: DesiredState, cs: seq<Contribution>, rest: seq<Contribution>)
      requires var profiles := EnabledProfiles(desired.profiles);
               var resources := Infrastructure.Enabled(desired.infrastructure);
               && |cs| == |profiles| && |rest| == |resources|
               && (forall k :: 0 <= k < |profiles| ==> ProfileContributes(protocols, cores.adapters, desired.users, profiles[k], cs[k]))
               && (forall k :: 0 <= k < |resources| ==> ResourceContributes(cores.adapters, resources[k], rest[k]))
      ensures Contributions(protocols, cores.adapters, desired, cs + rest)
      ensures forall c :: Owns(cs + rest, c) ==> Lookup(cores.adapters, c).Some?
    {
      var resources := Infrastructure.Enabled(desired.infrastructure);
      forall i | 0 <= i < |resources| ensures ResourceContributes(cores.adapters, resources[i], (cs + rest)[|cs| + i]) {
        assert (cs + rest)[|cs| + i] == rest[i];
      }
      forall c | Owns(cs + rest, c) ensures Lookup(cores.adapters, c).Some? {
        OwnersRegistered(protocols, cores.adapters, desired, cs + rest, c);
      }
    }

    /** Whether removing core `id` must be refused; `Err` when that cannot be told. */
    method CoreRemovalBlocked(desired: DesiredState, id: CoreId) returns (r: Result<bool>)
      requires cores.Valid()
      ensures r == Ok(false) <==> Removable(protocols, cores.adapters, desired, id)
      ensures r.Err? ==> exists i :: FirstObstacle(protocols, cores.adapters, desired.profiles, id, i) && i < |desired.profiles|
                                     && Unanswerable(protocols, cores.adapters, desired.profiles[i], id)
      ensures r == Ok(true) ==>
                || (exists i :: FirstObstacle(protocols, cores.adapters, desired.profiles, id, i) && i < |desired.profiles|
                                && Unreplaceable(protocols, cores.adapters, desired.profiles[i], id))
                || (FirstObstacle(protocols, cores.adapters, desired.profiles, id, |desired.profiles|)
                    && exists r :: r in desired.infrastructure && r.enabled && r.adapterId == id)
    {
      hide Replaceable;
      for i := 0 to |desired.profiles|
        invariant forall k :: 0 <= k < i && desired.profiles[k].enabled ==> Replaceable(protocols, cores.adapters, desired.profiles[k], id)
      {
        var p := desired.profiles[i];
        if p.enabled {
          if p.protocolId !in protocols {
            ObstacleIsNotReplaceable(protocols, cores.adapters, p, id);
            return Err;
          }
          if p.preferredCore == Some(id) {
            ObstacleIsNotReplaceable(protocols, cores.adapters, p, id);
            return Ok(true);
          }
          var other := cores.SelectExcluding(protocols[p.protocolId].required, id);
          if other.Err? || other.value.None? {
            ObstacleIsNotReplaceable(protocols, cores.adapters, p, id);
            return if other.Err? then Err else Ok(true);
          }
          assert Replaceable(protocols, cores.adapters, p, id) by {
            ReplacementFound(protocols, cores.adapters, p, id, other.value.value);
          }
        }
      }
      for i := 0 to |desired.infrastructure|
        invariant forall k :: 0 <= k < i && desired.infrastructure[k].enabled ==> desired.infrastructure[k].adapterId != id
      {
        if desired.infrastructure[i].enabled && desired.infrastructure[i].adapterId == id {
          assert desired.infrastructure[i] in desired.infrastructure;
          return Ok(true);
        }
      }
      return Ok(false);
    }
  }

  lemma NotServed(protocols: map<string, Protocol>, cores: seq<Core>, p: Profile, r: Result<Option<Core>>)
    requires Sorted(cores) && p.protocolId in protocols && (r.Err? || r.value.None?)
    requires p.preferredCore.None? ==> Chosen(cores, protocols[p.protocolId].required, r)
    requires p.preferredCore.Some? ==>
               var q := Lookup(cores, p.preferredCore.value);
               !(q.Some? && Capable(q.value, protocols[p.protocolId].required)
                 && Verdict(q.value, protocols[p.protocolId].required) == Yes)
    ensures !Served(protocols, cores, p)
  {
    if Served(protocols, cores, p) {
      var a :| Selects(cores, protocols[p.protocolId].required, p.preferredCore, a);
      if p.preferredCore.None? {
        ChosenUnique(cores, protocols[p.protocolId].required, r, Ok(Some(a)));
      }
    }
  }

  // ------------------------------------------------------------------
  // The removal guard

  ghost predicate Replaceable(protocols: map<string, Protocol>, cores: seq<Core>, p: Profile, id: CoreId) {
    && p.protocolId in protocols && p.preferredCore != Some(id)
    && exists a :: Chosen(Without(cores, id), protocols[p.protocolId].required, Ok(Some(a)))
  }

  /** The guard lets core `id` go. */
  ghost predicate Removable(protocols: map<string, Protocol>, cores: seq<Core>, desired: DesiredState, id: CoreId) {
    && (forall p :: p in desired.profiles && p.enabled ==> Replaceable(protocols, cores, p, id))
    && (forall r :: r in desired.infrastructure && r.enabled ==> r.adapterId != id)
  }

  /** The guard cannot tell: the protocol is unknown or a probe fails. */
  ghost predicate Unanswerable(protocols: map<string, Protocol>, cores: seq<Core>, p: Profile, id: CoreId) {
    p.enabled
    && (p.protocolId !in protocols
        || (p.preferredCore != Some(id) && Chosen(Without(cores, id), protocols[p.protocolId].required, Err)))
  }

  /** The profile asks for the core, or no other core qualifies. */
  ghost predicate Unreplaceable(protocols: map<string, Protocol>, cores: seq<Core>, p: Profile, id: CoreId) {
    p.enabled && p.protocolId in protocols
    && (p.preferredCore == Some(id) || Chosen(Without(cores, id), protocols[p.protocolId].required, Ok(None)))
  }

  /** Every enabled profile before `i` has a replacement. */
  ghost predicate FirstObstacle(protocols: map<string, Protocol>, cores: seq<Core>, profiles: seq<Profile>, id: CoreId, i: int) {
    0 <= i <= |profiles| && (i < |profiles| ==> !(profiles[i].enabled && Replaceable(protocols, cores, profiles[i], id)))
    && forall k :: 0 <= k < i && profiles[k].enabled ==> Replaceable(protocols, cores, profiles[k], id)
  }

  lemma ObstacleIsNotReplaceable(protocols: map<string, Protocol>, cores: seq<Core>, p: Profile, id: CoreId)
    requires Sorted(cores) && (Unanswerable(protocols, cores, p, id) || Unreplaceable(protocols, cores, p, id))
    ensures !Replaceable(protocols, cores, p, id)
  {
    if Replaceable(protocols, cores, p, id) {
      var required := protocols[p.protocolId].required;
      var a :| Chosen(Without(cores, id), required, Ok(Some(a)));
      FiltersKeepOrder(cores, {}, id);
      var r := if Unanswerable(protocols, cores, p, id) then Err else Ok(None);
      ChosenUnique(Without(cores, id), required, r, Ok(Some(a)));
    }
  }

  lemma ReplacementFound(protocols: map<string, Protocol>, cores: seq<Core>, p: Profile, id: CoreId, a: Core)
    requires p.protocolId in protocols && p.preferredCore != Some(id)
    requires Chosen(Without(cores, id), protocols[p.protocolId].required, Ok(Some(a)))
    ensures Replaceable(protocols, cores, p, id)
  {
  }

  lemma {:induction false} LookupAfterRemoval(cores: seq<Core>, removed: CoreId, id: CoreId)
    ensures Lookup(Uninstalled(cores, removed), id) ==
              match Lookup(cores, id)
              case Some(c) => Some(if id == removed then c.(installed := No) else c)
              case None => None
  {
    if cores != [] && cores[0].id != id {
      LookupAfterRemoval(cores[1..], removed, id);
    }
  }

  /** A profile without a preference keeps a core after the removal exactly when the guard found
      a replacement; a preferred other core is not affected. */
  lemma RemovalOfOne(protocols: map<string, Protocol>, cores: seq<Core>, p: Profile, id: CoreId)
    requires Sorted(cores) && Served(protocols, cores, p)
    ensures Replaceable(protocols, cores, p, id) ==> Served(protocols, Uninstalled(cores, id), p)
    ensures p.preferredCore.None? && Served(protocols, Uninstalled(cores, id), p) ==> Replaceable(protocols, cores, p, id)
    ensures p.preferredCore == Some(id) ==> !Served(protocols, Uninstalled(cores, id), p)
    ensures p.preferredCore !in {None, Some(id)} ==> Served(protocols, Uninstalled(cores, id), p)
  {
    var required := protocols[p.protocolId].required;
    var now :| Selects(cores, required, p.preferredCore, now);
    match p.preferredCore {
      case Some(preferred) =>
        LookupAfterRemoval(cores, id, preferred);
        if preferred != id {
          assert Selects(Uninstalled(cores, id), required, p.preferredCore, now);
        }
      case None =>
        if Replaceable(protocols, cores, p, id) {
          var a :| Chosen(Without(cores, id), required, Ok(Some(a)));
          RemovalPicksReplacement(cores, required, id, now, Ok(Some(a)));
          assert Selects(Uninstalled(cores, id), required, p.preferredCore, a);
        }
        if Served(protocols, Uninstalled(cores, id), p) {
          var a :| Selects(Uninstalled(cores, id), required, p.preferredCore, a);
          SurvivorIsReplacement(cores, required, id, a);
        }
    }
  }

  lemma SurvivorIsReplacement(cores: seq<Core>, required: set<string>, id: CoreId, a: Core)
    requires Sorted(cores) && Chosen(Uninstalled(cores, id), required, Ok(Some(a)))
    ensures Chosen(Without(cores, id), required, Ok(Some(a)))
  {
    UninstalledMembers(cores, id);
    assert a.id != id;
    forall b | b in Without(cores, id) ensures b in Uninstalled(cores, id) {
    }
  }

  /** Removal guard: when the desired state is accepted and the guard lets a core go, the desired
      state is still accepted once that core reports not installed. */
  lemma RemovalGuardSufficient(protocols: map<string, Protocol>, cores: seq<Core>, desired: DesiredState,
                               applied: AppliedState, id: CoreId)
    requires Sorted(cores) && Accepts(protocols, cores, desired, applied) && Removable(protocols, cores, desired, id)
    ensures Accepts(protocols, Uninstalled(cores, id), desired, applied)
  {
    forall p | p in desired.profiles && p.enabled ensures Served(protocols, Uninstalled(cores, id), p) {
      RemovalOfOne(protocols, cores, p, id);
    }
    forall c | Lookup(cores, c).Some? ensures Lookup(Uninstalled(cores, id), c).Some? {
      LookupAfterRemoval(cores, id, c);
    }
  }

  /** After the removal the desired state is still accepted if and only if every enabled profile has a
      replacement or prefers another core. */
  lemma RemovalAcceptedExactly(protocols: map<string, Protocol>, cores: seq<Core>, desired: DesiredState,
                               applied: AppliedState, id: CoreId)
    requires Sorted(cores) && Accepts(protocols, cores, desired, applied)
    ensures Accepts(protocols, Uninstalled(cores, id), desired, applied) <==>
              forall p :: p in desired.profiles && p.enabled && p.preferredCore in {None, Some(id)} ==>
                            Replaceable(protocols, cores, p, id)
  {
    hide Replaceable, Infrastructure.WellFormed;
    forall p | p in desired.profiles && p.enabled
      ensures Served(protocols, Uninstalled(cores, id), p) <==>
                Replaceable(protocols, cores, p, id) || p.preferredCore !in {None, Some(id)}
    {
      RemovalOfOne(protocols, cores, p, id);
      if p.preferredCore == Some(id) {
        PreferredIsNotReplaceable(protocols, cores, p, id);
      }
    }
    forall c ensures Lookup(Uninstalled(cores, id), c).Some? <==> Lookup(cores, c).Some? {
      LookupAfterRemoval(cores, id, c);
    }
  }

  lemma PreferredIsNotReplaceable(protocols: map<string, Protocol>, cores: seq<Core>, p: Profile, id: CoreId)
    requires p.preferredCore == Some(id)
    ensures !Replaceable(protocols, cores, p, id)
  {
  }

  /** How much stricter the guard is: it also refuses a core that carries an enabled resource, and one
      that is the only alternative of a profile that prefers another core. */
  lemma RemovalGuardExact(protocols: map<string, Protocol>, cores: seq<Core>, desired: DesiredState,
                          applied: AppliedState, id: CoreId)
    requires Sorted(cores) && Accepts(protocols, cores, desired, applied)
    ensures Removable(protocols, cores, desired, id) <==>
              && Accepts(protocols, Uninstalled(cores, id), desired, applied)
              && (forall r :: r in desired.infrastructure && r.enabled ==> r.adapterId != id)
              && forall p :: p in desired.profiles && p.enabled && p.preferredCore !in {None, Some(id)} ==>
                               Replaceable(protocols, cores, p, id)
  {
    hide Replaceable, Accepts;
    RemovalAcceptedExactly(protocols, cores, desired, applied, id);
  }

  // ------------------------------------------------------------------

  function Listeners(fragments: seq<ServerFragment>): seq<ListenerClaim> {
    if fragments == [] then [] else Listeners(fragments[..|fragments| - 1]) + fragments[|fragments| - 1].listeners
  }

  function AllListeners(plans: seq<CorePlan>): seq<ListenerClaim> {
    if plans == [] then [] else AllListeners(plans[..|plans| - 1]) + Listeners(plans[|plans| - 1].fragments)
  }

  /** The plans of a desired state in which no two fragments claim the same listener. */
  ghost predicate ConflictFree(protocols: map<string, Protocol>, cores: seq<Core>, desired: DesiredState,
                               applied: AppliedState, plans: seq<CorePlan>) {
    PlansFor(protocols, cores, desired, applied, plans) && NoDuplicates(AllListeners(plans))
  }

  ghost predicate HasPlans(protocols: map<string, Protocol>, cores: seq<Core>, desired: DesiredState, applied: AppliedState) {
    exists plans :: ConflictFree(protocols, cores, desired, applied, plans)
  }

  lemma NoPlanWithoutPlans(protocols: map<string, Protocol>, cores: seq<Core>, desired: DesiredState, applied: AppliedState, plans: seq<CorePlan>)
    requires ConflictFree(protocols, cores, desired, applied, plans)
    ensures HasPlans(protocols, cores, desired, applied)
  {
  }

  /** Rejects plans in which two fragments claim the same listener. */
  method ValidateListeners(plans: seq<CorePlan>) returns (ok: bool)
    ensures ok <==> NoDuplicates(AllListeners(plans))
  {
    hide NoDuplicates, Listeners;
    var owners: seq<ListenerClaim> := [];
    NothingClaimed();
    for i := 0 to |plans|
      invariant owners == AllListeners(plans[..i]) && NoDuplicates(owners)
    {
      assert plans[..i + 1][..i] == plans[..i];
      ok, owners := ClaimAll(owners, plans, i);
      if !ok {
        return;
      }
    }
    assert plans[..|plans|] == plans;
    return true;
  }

  lemma NothingClaimed()
    ensures NoDuplicates<ListenerClaim>([])
  {
  }

  /** Claims the listeners of one plan; fails if one of them is taken. */
  method ClaimAll(taken: seq<ListenerClaim>, plans: seq<CorePlan>, i: nat) returns (ok: bool, owners: seq<ListenerClaim>)
    requires i < |plans| && taken == AllListeners(plans[..i]) && NoDuplicates(taken)
    ensures ok ==> owners == taken + Listeners(plans[i].fragments) && NoDuplicates(owners)
    ensures !ok ==> !NoDuplicates(AllListeners(plans))
  {
    hide NoDuplicates, AllListeners;
    var fragments := plans[i].fragments;
    owners := taken;
    for n := 0 to |fragments|
      invariant owners == taken + Listeners(fragments[..n]) && NoDuplicates(owners)
    {
      assert fragments[..n + 1][..n] == fragments[..n];
      ghost var fewer := owners;
      var listeners := fragments[n].listeners;
      for m := 0 to |listeners|
        invariant owners == fewer + listeners[..m] && NoDuplicates(owners)
      {
        if listeners[m] in owners {
          ghost var k :| 0 <= k < |owners| && owners[k] == listeners[m];
          Conflict(plans, i, n, m, k);
          return false, owners;
        }
        OneMoreClaim(owners, listeners[m]);
        owners := owners + [listeners[m]];
      }
    }
    assert fragments[..|fragments|] == fragments;
    ok := true;
  }

  lemma OneMoreClaim(owners: seq<ListenerClaim>, claim: ListenerClaim)
    requires NoDuplicates(owners) && claim !in owners
    ensures NoDuplicates(owners + [claim])
  {
  }

  // ------------------------------------------------------------------
  // What the plans carry

  /** The enabled profile at position `i` is rendered to `e` for the core selected for it. */
  ghost predicate RenderedTo(protocols: map<string, Protocol>, cores: seq<Core>, desired: DesiredState, i: int, e: Contribution)
    requires 0 <= i < |desired.profiles|
  {
    var p := desired.profiles[i];
    && p.enabled && p.protocolId in protocols && protocols[p.protocolId].validates(p.schemaVersion, p.config)
    && protocols[p.protocolId].render(p, desired.users) == Some(e.1)
    && exists a :: Selects(cores, protocols[p.protocolId].required, p.preferredCore, a) && a.id == e.0
  }

  /** The enabled resource at position `i` goes to its adapter with its own ID, configuration and listeners, and no expected users. */
  ghost predicate CarriedTo(desired: DesiredState, i: int, e: Contribution)
    requires 0 <= i < |desired.infrastructure|
  {
    var r := desired.infrastructure[i];
    r.enabled && e.0 == r.adapterId && e.1.profileId == r.resourceId && e.1.payload == r.config && e.1.expectedUserIds == None
    && e.1.listeners == r.listeners
  }

  /** The contributions of the enabled profiles, at `ps`, and then of the enabled resources, at `rs`, each in the given order. */
  ghost predicate InDesiredOrder(protocols: map<string, Protocol>, cores: seq<Core>, desired: DesiredState, cs: seq<Contribution>,
                                 ps: seq<int>, rs: seq<int>) {
    && |cs| == |ps| + |rs|
    && (forall i :: i in ps <==> 0 <= i < |desired.profiles| && desired.profiles[i].enabled)
    && (forall i :: i in rs <==> 0 <= i < |desired.infrastructure| && desired.infrastructure[i].enabled)
    && (forall i, k :: 0 <= i < k < |ps| ==> ps[i] < ps[k])
    && (forall i, k :: 0 <= i < k < |rs| ==> rs[i] < rs[k])
    && (forall k :: 0 <= k < |ps| ==> ps[k] in ps && RenderedTo(protocols, cores, desired, ps[k], cs[k]))
    && forall k :: 0 <= k < |rs| ==> rs[k] in rs && CarriedTo(desired, rs[k], cs[|ps| + k])
  }

  /** The fragments of a plan are the contributions to its core, in order. */
  ghost predicate PlanCarries(cs: seq<Contribution>, plan: CorePlan) {
    exists at: seq<int> :: CarriesAt(cs, plan, at)
  }

  ghost predicate CarriesAt(cs: seq<Contribution>, plan: CorePlan, at: seq<int>) {
    && |at| == |plan.fragments|
    && (forall i, k :: 0 <= i < k < |at| ==> at[i] < at[k])
    && (forall i :: i in at <==> 0 <= i < |cs| && cs[i].0 == plan.coreId)
    && forall k :: 0 <= k < |at| ==> at[k] in at && plan.fragments[k] == cs[at[k]].1
  }

  lemma {:induction false} FragmentsListed(cs: seq<Contribution>, c: CoreId) returns (at: seq<int>)
    ensures |at| == |FragmentsOf(cs, c)| && (forall i, k :: 0 <= i < k < |at| ==> at[i] < at[k])
    ensures forall i :: i in at <==> 0 <= i < |cs| && cs[i].0 == c
    ensures forall k :: 0 <= k < |at| ==> 0 <= at[k] < |cs| && FragmentsOf(cs, c)[k] == cs[at[k]].1
  {
    if cs == [] {
      at := [];
    } else {
      var n := |cs| - 1;
      var before := FragmentsListed(cs[..n], c);
      at := before + (if cs[n].0 == c then [n] else []);
      assert forall k :: 0 <= k < |before| ==> before[k] in before;
    }
  }

  lemma ContributionsInOrder(protocols: map<string, Protocol>, cores: seq<Core>, desired: DesiredState, cs: seq<Contribution>)
    requires Contributions(protocols, cores, desired, cs)
    ensures exists ps: seq<int>, rs: seq<int> :: InDesiredOrder(protocols, cores, desired, cs, ps, rs)
  {
    hide EnabledProfiles, Infrastructure.Enabled, ProfileContributes, ResourceContributes, RenderedTo, CarriedTo;
    var ps := EnabledProfilesListed(desired.profiles);
    var rs := Infrastructure.EnabledListed(desired.infrastructure);
    var profiles := EnabledProfiles(desired.profiles);
    var resources := Infrastructure.Enabled(desired.infrastructure);
    forall k | 0 <= k < |ps| ensures ps[k] in ps && RenderedTo(protocols, cores, desired, ps[k], cs[k]) {
      assert ProfileContributes(protocols, cores, desired.users, profiles[k], cs[k]);
      ContributionRendered(protocols, cores, desired, ps[k], cs[k]);
    }
    forall k | 0 <= k < |rs| ensures rs[k] in rs && CarriedTo(desired, rs[k], cs[|ps| + k]) {
      assert ResourceContributes(cores, resources[k], cs[|profiles| + k]);
      ContributionCarried(cores, desired, rs[k], cs[|ps| + k]);
    }
    assert InDesiredOrder(protocols, cores, desired, cs, ps, rs);
  }

  lemma ContributionRendered(protocols: map<string, Protocol>, cores: seq<Core>, desired: DesiredState, i: int, e: Contribution)
    requires 0 <= i < |desired.profiles| && desired.profiles[i].enabled
    requires ProfileContributes(protocols, cores, desired.users, desired.profiles[i], e)
    ensures RenderedTo(protocols, cores, desired, i, e)
  {
    hide Selects;
  }

  lemma ContributionCarried(cores: seq<Core>, desired: DesiredState, i: int, e: Contribution)
    requires 0 <= i < |desired.infrastructure| && desired.infrastructure[i].enabled
    requires ResourceContributes(cores, desired.infrastructure[i], e)
    ensures CarriedTo(desired, i, e)
  {
  }

  /** The plans carry, core by core and in the order of the desired state, exactly what the enabled profiles are rendered to and
      what the enabled resources say. */
  lemma PlansCarry(protocols: map<string, Protocol>, cores: seq<Core>, desired: DesiredState, applied: AppliedState, plans: seq<CorePlan>)
    requires PlansFor(protocols, cores, desired, applied, plans)
    ensures exists cs: seq<Contribution> :: Carried(protocols, cores, desired, plans, cs)
  {
    hide Contributions, FragmentsOf, InDesiredOrder, Find, Owns;
    var cs: seq<Contribution> :| Contributions(protocols, cores, desired, cs) && PlanSet(plans, desired.generation, cs, applied.activeCoreIds);
    ContributionsInOrder(protocols, cores, desired, cs);
    forall p | p in plans ensures PlanCarries(cs, p) {
      FoundIsItself(plans, p);
      assert p.fragments == FragmentsOf(cs, p.coreId);
      var at := FragmentsListed(cs, p.coreId);
      assert CarriesAt(cs, p, at);
    }
    forall i | 0 <= i < |cs| ensures exists p :: p in plans && p.coreId == cs[i].0 {
      OwnerPlanned(plans, desired.generation, cs, applied.activeCoreIds, i);
    }
    forall i, k | 0 <= i < k < |plans| ensures plans[i].coreId != plans[k].coreId {
      BelowTotal(plans[i].coreId, plans[k].coreId);
    }
    assert exists ps: seq<int>, rs: seq<int> :: InDesiredOrder(protocols, cores, desired, cs, ps, rs);
    assert (forall p :: p in plans ==> PlanCarries(cs, p));
    assert (forall i :: 0 <= i < |cs| ==> exists p :: p in plans && p.coreId == cs[i].0);
    assert Carried(protocols, cores, desired, plans, cs);
  }

  lemma OwnerPlanned(plans: seq<CorePlan>, generation: nat, cs: seq<Contribution>, active: seq<CoreId>, i: int)
    requires PlanSet(plans, generation, cs, active) && 0 <= i < |cs|
    ensures exists p :: p in plans && p.coreId == cs[i].0
  {
    hide FragmentsOf;
    assert Owns(cs, cs[i].0);
    assert Find(plans, cs[i].0).Some?;
  }

  ghost predicate Carried(protocols: map<string, Protocol>, cores: seq<Core>, desired: DesiredState, plans: seq<CorePlan>, cs: seq<Contribution>) {
    && (exists ps: seq<int>, rs: seq<int> :: InDesiredOrder(protocols, cores, desired, cs, ps, rs))
    && (forall p :: p in plans ==> PlanCarries(cs, p))
    && (forall i :: 0 <= i < |cs| ==> exists p :: p in plans && p.coreId == cs[i].0)
    && forall i, k :: 0 <= i < k < |plans| ==> plans[i].coreId != plans[k].coreId
  }

  /** Every enabled resource has its fragment in the plan of its adapter. */
  lemma ResourceIsCarried(protocols: map<string, Protocol>, cores: seq<Core>, desired: DesiredState, applied: AppliedState,
                          plans: seq<CorePlan>, r: InfrastructureResource)
    requires PlansFor(protocols, cores, desired, applied, plans) && r in desired.infrastructure && r.enabled
    ensures exists p, f :: p in plans && p.coreId == r.adapterId && f in p.fragments && f.profileId == r.resourceId
                           && f.payload == r.config && f.expectedUserIds == None && f.listeners == r.listeners
  {
    hide PlansFor, InDesiredOrder, PlanCarries;
    PlansCarry(protocols, cores, desired, applied, plans);
    var cs: seq<Contribution> :| Carried(protocols, cores, desired, plans, cs);
    var k := ResourceContribution(protocols, cores, desired, cs, r);
    var p :| p in plans && p.coreId == cs[k].0;
    CarriedFragment(cs, p, k);
  }

  lemma ResourceContribution(protocols: map<string, Protocol>, cores: seq<Core>, desired: DesiredState, cs: seq<Contribution>,
                             r: InfrastructureResource) returns (k: nat)
    requires exists ps: seq<int>, rs: seq<int> :: InDesiredOrder(protocols, cores, desired, cs, ps, rs)
    requires r in desired.infrastructure && r.enabled
    ensures k < |cs| && cs[k].0 == r.adapterId && cs[k].1.profileId == r.resourceId && cs[k].1.payload == r.config
    ensures cs[k].1.expectedUserIds == None && cs[k].1.listeners == r.listeners
  {
    hide InDesiredOrder;
    var ps: seq<int>, rs: seq<int> :| InDesiredOrder(protocols, cores, desired, cs, ps, rs);
    var i :| 0 <= i < |desired.infrastructure| && desired.infrastructure[i] == r;
    k := CarriedAt(protocols, cores, desired, cs, ps, rs, i);
  }

  lemma CarriedAt(protocols: map<string, Protocol>, cores: seq<Core>, desired: DesiredState, cs: seq<Contribution>,
                  ps: seq<int>, rs: seq<int>, i: nat) returns (k: nat)
    requires InDesiredOrder(protocols, cores, desired, cs, ps, rs)
    requires i < |desired.infrastructure| && desired.infrastructure[i].enabled
    ensures |ps| <= k < |cs| && k - |ps| < |rs| && rs[k - |ps|] == i && CarriedTo(desired, i, cs[k])
  {
    hide RenderedTo, CarriedTo;
    assert i in rs;
    var n :| 0 <= n < |rs| && rs[n] == i;
    assert CarriedTo(desired, rs[n], cs[|ps| + n]);
    k := |ps| + n;
  }

  lemma CarriedFragment(cs: seq<Contribution>, p: CorePlan, i: nat)
    requires PlanCarries(cs, p) && i < |cs| && cs[i].0 == p.coreId
    ensures cs[i].1 in p.fragments
  {
    var at :| CarriesAt(cs, p, at);
    assert i in at;
    var k :| 0 <= k < |at| && at[k] == i;
    assert p.fragments[k] == cs[i].1;
  }

  // ------------------------------------------------------------------
  // Listener conflicts

  /** No two listener claims of the contributions are equal. */
  ghost predicate ClaimsDistinct(cs: seq<Contribution>) {
    forall i, k, m, n :: 0 <= i < |cs| && 0 <= k < |cs| && 0 <= m < |cs[i].1.listeners| && 0 <= n < |cs[k].1.listeners| ==>
      (cs[i].1.listeners[m] == cs[k].1.listeners[n] ==> i == k && m == n)
  }

  function Claims(cs: seq<Contribution>): seq<ListenerClaim> {
    if cs == [] then [] else Claims(cs[..|cs| - 1]) + cs[|cs| - 1].1.listeners
  }

  ghost function ClaimsOn(cs: seq<Contribution>, c: CoreId): multiset<ListenerClaim> {
    multiset(Listeners(FragmentsOf(cs, c)))
  }

  ghost function ClaimsOver(cs: seq<Contribution>, ids: seq<CoreId>): multiset<ListenerClaim> {
    if ids == [] then multiset{} else ClaimsOver(cs, ids[..|ids| - 1]) + ClaimsOn(cs, ids[|ids| - 1])
  }

  lemma OneMoreOn(cs: seq<Contribution>, e: Contribution, c: CoreId)
    ensures ClaimsOn(cs + [e], c) == ClaimsOn(cs, c) + (if e.0 == c then multiset(e.1.listeners) else multiset{})
  {
    assert (cs + [e])[..|cs|] == cs;
    var before := FragmentsOf(cs, c);
    if e.0 == c {
      assert FragmentsOf(cs + [e], c) == before + [e.1];
      assert (before + [e.1])[..|before|] == before;
      assert Listeners(before + [e.1]) == Listeners(before) + e.1.listeners;
    } else {
      assert FragmentsOf(cs + [e], c) == before;
    }
  }

  lemma {:induction false} OneMoreOver(cs: seq<Contribution>, e: Contribution, ids: seq<CoreId>)
    requires NoDuplicates(ids)
    ensures ClaimsOver(cs + [e], ids) == ClaimsOver(cs, ids) + (if e.0 in ids then multiset(e.1.listeners) else multiset{})
  {
    hide ClaimsOn;
    if ids != [] {
      var n := |ids| - 1;
      OneMoreOver(cs, e, ids[..n]);
      OneMoreOn(cs, e, ids[n]);
      assert ids == ids[..n] + [ids[n]];
      assert ids[n] !in ids[..n];
    }
  }

  lemma {:induction false} NothingOver(ids: seq<CoreId>)
    ensures ClaimsOver([], ids) == multiset{}
  {
    if ids != [] {
      NothingOver(ids[..|ids| - 1]);
    }
  }

  lemma {:induction false} ClaimsOverAll(cs: seq<Contribution>, ids: seq<CoreId>)
    requires NoDuplicates(ids) && forall i :: 0 <= i < |cs| ==> cs[i].0 in ids
    ensures ClaimsOver(cs, ids) == multiset(Claims(cs))
  {
    hide ClaimsOver;
    if cs == [] {
      NothingOver(ids);
    } else {
      var n := |cs| - 1;
      ClaimsOverAll(cs[..n], ids);
      OneMoreOver(cs[..n], cs[n], ids);
      assert cs == cs[..n] + [cs[n]];
    }
  }

  function PlanIds(plans: seq<CorePlan>): (r: seq<CoreId>)
    ensures |r| == |plans| && forall i :: 0 <= i < |r| ==> r[i] == plans[i].coreId
  {
    seq(|plans|, i requires 0 <= i < |plans| => plans[i].coreId)
  }

  lemma {:induction false} ListenersOfPlans(plans: seq<CorePlan>, cs: seq<Contribution>)
    requires forall i :: 0 <= i < |plans| ==> plans[i].fragments == FragmentsOf(cs, plans[i].coreId)
    ensures multiset(AllListeners(plans)) == ClaimsOver(cs, PlanIds(plans))
  {
    hide FragmentsOf, Listeners;
    if plans != [] {
      var n := |plans| - 1;
      ListenersOfPlans(plans[..n], cs);
      assert PlanIds(plans)[..n] == PlanIds(plans[..n]);
    }
  }

  lemma SameBagSameDuplicates<T>(a: seq<T>, b: seq<T>)
    requires multiset(a) == multiset(b)
    ensures NoDuplicates(a) <==> NoDuplicates(b)
  {
    NoDuplicatesCounts(a);
    NoDuplicatesCounts(b);
  }

  lemma {:induction false} NoDuplicatesCounts<T>(s: seq<T>)
    ensures NoDuplicates(s) <==> forall x :: x in s ==> multiset(s)[x] == 1
  {
    if s != [] {
      var n := |s| - 1;
      var head, last := s[..n], s[n];
      assert s == head + [last];
      NoDuplicatesCounts(head);
      SnocDuplicates(head, last);
      assert last in head ==> multiset(head)[last] >= 1;
      assert forall x :: x in head ==> multiset(s)[x] >= multiset(head)[x];
      if NoDuplicates(s) {
        forall x | x in s ensures multiset(s)[x] == 1 {
          if x == last {
            assert multiset(head)[last] == 0;
          }
        }
      }
      if forall x :: x in s ==> multiset(s)[x] == 1 {
        assert multiset(s)[last] == multiset(head)[last] + 1;
        assert last !in head;
        forall x | x in head ensures multiset(head)[x] == 1 {
          assert multiset(s)[x] == multiset(head)[x];
        }
      }
    }
  }

  lemma SnocDuplicates<T>(head: seq<T>, last: T)
    ensures NoDuplicates(head + [last]) <==> NoDuplicates(head) && last !in head
  {
    var s := head + [last];
    if NoDuplicates(s) {
      assert forall i :: 0 <= i < |head| ==> s[i] == head[i];
      forall i | 0 <= i < |head| ensures head[i] != last {
        assert s[i] != s[|head|];
      }
      forall i, k | 0 <= i < k < |head| ensures head[i] != head[k] {
        assert s[i] != s[k];
      }
    }
  }

  /** Where a claim of the flat list comes from. */
  lemma {:induction false} ClaimAt(cs: seq<Contribution>, x: nat) returns (i: nat, m: nat)
    requires x < |Claims(cs)|
    ensures i < |cs| && m < |cs[i].1.listeners| && Claims(cs)[x] == cs[i].1.listeners[m] && x == |Claims(cs[..i])| + m
  {
    var n := |cs| - 1;
    if x < |Claims(cs[..n])| {
      i, m := ClaimAt(cs[..n], x);
      assert cs[..n][..i] == cs[..i];
    } else {
      i, m := n, x - |Claims(cs[..n])|;
    }
  }

  lemma {:induction false} ClaimPosition(cs: seq<Contribution>, i: nat, m: nat)
    requires i < |cs| && m < |cs[i].1.listeners|
    ensures |Claims(cs[..i])| + m < |Claims(cs)| && Claims(cs)[|Claims(cs[..i])| + m] == cs[i].1.listeners[m]
    ensures |Claims(cs[..i])| + |cs[i].1.listeners| == |Claims(cs[..i + 1])|
  {
    var n := |cs| - 1;
    assert cs[..i + 1][..i] == cs[..i];
    if i < n {
      ClaimPosition(cs[..n], i, m);
      assert cs[..n][..i] == cs[..i];
    } else {
      assert cs[..n + 1] == cs;
    }
  }

  lemma {:induction false} ClaimsGrow(cs: seq<Contribution>, i: nat, k: nat)
    requires i <= k <= |cs|
    ensures |Claims(cs[..i])| <= |Claims(cs[..k])|
  {
    if i < k {
      ClaimsGrow(cs, i, k - 1);
      assert cs[..k][..k - 1] == cs[..k - 1];
    }
  }

  lemma ClaimsDistinctExactly(cs: seq<Contribution>)
    ensures NoDuplicates(Claims(cs)) <==> ClaimsDistinct(cs)
  {
    hide Claims;
    if NoDuplicates(Claims(cs)) {
      forall i, k, m, n | 0 <= i < |cs| && 0 <= k < |cs| && 0 <= m < |cs[i].1.listeners| && 0 <= n < |cs[k].1.listeners|
                          && cs[i].1.listeners[m] == cs[k].1.listeners[n]
        ensures i == k && m == n
      {
        ClaimPosition(cs, i, m);
        ClaimPosition(cs, k, n);
        if i < k {
          ClaimsGrow(cs, i + 1, k);
        }
        if k < i {
          ClaimsGrow(cs, k + 1, i);
        }
      }
    }
    if ClaimsDistinct(cs) {
      forall x, y | 0 <= x < y < |Claims(cs)| ensures Claims(cs)[x] != Claims(cs)[y] {
        var i, m := ClaimAt(cs, x);
        var k, n := ClaimAt(cs, y);
      }
    }
  }

  /** Plans are free of conflicts if and only if no two listener claims of the enabled profiles and resources are equal. */
  lemma ConflictsExactly(protocols: map<string, Protocol>, cores: seq<Core>, desired: DesiredState, applied: AppliedState,
                         plans: seq<CorePlan>, cs: seq<Contribution>)
    requires Contributions(protocols, cores, desired, cs) && PlanSet(plans, desired.generation, cs, applied.activeCoreIds)
    ensures NoDuplicates(AllListeners(plans)) <==> ClaimsDistinct(cs)
  {
    hide Contributions, FragmentsOf, AllListeners, Claims, ClaimsDistinct, Find, Owns;
    forall i | 0 <= i < |plans| ensures plans[i].fragments == FragmentsOf(cs, plans[i].coreId) {
      FoundIsItself(plans, plans[i]);
    }
    ListenersOfPlans(plans, cs);
    var ids := PlanIds(plans);
    assert NoDuplicates(ids) by {
      forall i, k | 0 <= i < k < |ids| ensures ids[i] != ids[k] {
        BelowTotal(ids[i], ids[k]);
      }
    }
    forall i | 0 <= i < |cs| ensures cs[i].0 in ids {
      OwnerPlanned(plans, desired.generation, cs, applied.activeCoreIds, i);
      var p :| p in plans && p.coreId == cs[i].0;
      var k :| 0 <= k < |plans| && plans[k] == p;
      assert ids[k] == cs[i].0;
    }
    ClaimsOverAll(cs, ids);
    SameBagSameDuplicates(AllListeners(plans), Claims(cs));
    ClaimsDistinctExactly(cs);
  }

  /** Two enabled resources that claim a common listener cannot be planned together. */
  lemma CommonListenerBlocks(protocols: map<string, Protocol>, cores: seq<Core>, desired: DesiredState, applied: AppliedState,
                             i: nat, k: nat, claim: ListenerClaim)
    requires i < k < |desired.infrastructure| && desired.infrastructure[i].enabled && desired.infrastructure[k].enabled
    requires claim in desired.infrastructure[i].listeners && claim in desired.infrastructure[k].listeners
    ensures !HasPlans(protocols, cores, desired, applied)
  {
    hide AllListeners, ClaimsDistinct, PlanSet, Contributions;
    if HasPlans(protocols, cores, desired, applied) {
      var plans :| ConflictFree(protocols, cores, desired, applied, plans);
      var cs: seq<Contribution> :| Contributions(protocols, cores, desired, cs) && PlanSet(plans, desired.generation, cs, applied.activeCoreIds);
      ConflictsExactly(protocols, cores, desired, applied, plans, cs);
      CommonClaim(protocols, cores, desired, cs, i, k, claim);
    }
  }

  lemma CommonClaim(protocols: map<string, Protocol>, cores: seq<Core>, desired: DesiredState, cs: seq<Contribution>,
                    i: nat, k: nat, claim: ListenerClaim)
    requires Contributions(protocols, cores, desired, cs) && i < k < |desired.infrastructure|
    requires desired.infrastructure[i].enabled && desired.infrastructure[k].enabled
    requires claim in desired.infrastructure[i].listeners && claim in desired.infrastructure[k].listeners
    ensures !ClaimsDistinct(cs)
  {
    hide Contributions, InDesiredOrder;
    ContributionsInOrder(protocols, cores, desired, cs);
    var ps: seq<int>, rs: seq<int> :| InDesiredOrder(protocols, cores, desired, cs, ps, rs);
    var a := CarriedAt(protocols, cores, desired, cs, ps, rs, i);
    var b := CarriedAt(protocols, cores, desired, cs, ps, rs, k);
    var m :| 0 <= m < |desired.infrastructure[i].listeners| && desired.infrastructure[i].listeners[m] == claim;
    var n :| 0 <= n < |desired.infrastructure[k].listeners| && desired.infrastructure[k].listeners[n] == claim;
    assert cs[a].1.listeners[m] == cs[b].1.listeners[n] && a != b;
  }

  lemma {:induction false} ListenersPrefix(fragments: seq<ServerFragment>, n: nat)
    requires n <= |fragments|
    ensures Listeners(fragments[..n]) <= Listeners(fragments)
  {
    if n < |fragments| {
      var k := |fragments| - 1;
      ListenersPrefix(fragments[..k], n);
      assert fragments[..k][..n] == fragments[..n];
    } else {
      assert fragments[..n] == fragments;
    }
  }

  lemma {:induction false} AllListenersPrefix(plans: seq<CorePlan>, i: nat)
    requires i <= |plans|
    ensures AllListeners(plans[..i]) <= AllListeners(plans)
  {
    if i < |plans| {
      var k := |plans| - 1;
      AllListenersPrefix(plans[..k], i);
      assert plans[..k][..i] == plans[..i];
    } else {
      assert plans[..i] == plans;
    }
  }

  lemma Conflict(plans: seq<CorePlan>, i: nat, n: nat, m: nat, k: nat)
    requires i < |plans| && n < |plans[i].fragments| && m < |plans[i].fragments[n].listeners|
    requires var seen := AllListeners(plans[..i]) + Listeners(plans[i].fragments[..n]) + plans[i].fragments[n].listeners[..m];
             k < |seen| && seen[k] == plans[i].fragments[n].listeners[m]
    ensures !NoDuplicates(AllListeners(plans))
  {
    var fragments := plans[i].fragments;
    var l := fragments[n].listeners;
    var x, y := AllListeners(plans[..i]), Listeners(fragments[..n]);
    assert fragments[..n + 1][..n] == fragments[..n];
    assert y + l <= Listeners(fragments) by { ListenersPrefix(fragments, n + 1); }
    assert plans[..i + 1][..i] == plans[..i];
    assert x + Listeners(fragments) <= AllListeners(plans) by { AllListenersPrefix(plans, i + 1); }
    DuplicateInPrefix(x, y, l, m, k, Listeners(fragments), AllListeners(plans));
  }

  lemma DuplicateInPrefix<T>(x: seq<T>, y: seq<T>, l: seq<T>, m: nat, k: nat, middle: seq<T>, all: seq<T>)
    requires y + l <= middle && x + middle <= all && m < |l|
    requires k < |x + y + l[..m]| && (x + y + l[..m])[k] == l[m]
    ensures !NoDuplicates(all)
  {
    assert forall i :: 0 <= i < |y + l| ==> middle[i] == (y + l)[i];
    assert forall i :: 0 <= i < |x + middle| ==> all[i] == (x + middle)[i];
    assert all[|x| + |y| + m] == l[m];
    assert all[k] == l[m];
  }
}
