/** The built-in client policy. */
module DefaultPolicy {
  import opened Prelude
  import opened Text
  import opened Desired
  import opened Graph
  import opened Rules
  import opened Policy
  import opened RoutingTopology
  import opened Mihomo

  const DOMESTIC: seq<string> := [
    "private", "category-ru-whitelist", "category-gov-ru", "ru-banks", "ru-payments", "ru-finance", "ru-marking", "ru-cdn"]

  const SERVICES: seq<string> := ["ru-retail-extra", "ru-transport", "ru-tv", "yandex", "mailru-group", "vk", "ozon", "wildberries"]

  const MEDIA: seq<string> := ["x5", "avito", "dzen", "rutube", "ok", "okko", "wink", "2gis"]

  /** Geosite categories that are routed directly. */
  const CATEGORIES: seq<string> := DOMESTIC + SERVICES + MEDIA

  const FAST := "FAST-AUTO"
  const REST := "REST-AUTO"
  const SMART := "SMART-AUTO"
  const MANUAL := "MANUAL"

  function AutomaticPool(id: string, kind: PoolKind, members: seq<PoolMember>, timeout: nat, tolerance: Option<nat>, priority: int):
    TransportPool
  {
    TransportPool(id, id, kind, true, members, Some(HEALTH_URL), Some(60), Some(timeout), tolerance,
      Some(5), false, None, None, priority, None)
  }

  function DefaultPools(): seq<TransportPool> {
    [ AutomaticPool(FAST, UrlTest, [ByRole(Speed)], 500, Some(50), 100),
      AutomaticPool(REST, UrlTest, [ExceptRole(Speed)], 3000, Some(50), 110),
      AutomaticPool(SMART, PoolKind.Fallback, [ByPool(FAST), ByPool(REST)], 3000, None, 120),
      TransportPool(MANUAL, MANUAL, Select, true, [ByPool(SMART), ByPool(FAST), ByPool(REST), AllProfiles, Direct], None, None, None,
        None, None, true, None, None, 130, None) ]
  }

  function GeositeRule(i: nat): PolicyRule
    requires i < |CATEGORIES|
  {
    PolicyRule("direct-geosite-" + CATEGORIES[i], "Direct geosite " + CATEGORIES[i], true, 100 + i, "GEOSITE," + CATEGORIES[i], DIRECT)
  }

  function UnresolvedRule(id: string, name: string, priority: int, kind: string, value: string): PolicyRule {
    PolicyRule(id, name, true, priority, kind + "," + (value + "," + NO_RESOLVE), DIRECT)
  }

  const OTHER_RULES: seq<PolicyRule> := [
    UnresolvedRule("private-10", "Private 10/8", 200, "IP-CIDR", "10.0.0.0/8"),
    UnresolvedRule("private-172", "Private 172.16/12", 210, "IP-CIDR", "172.16.0.0/12"),
    UnresolvedRule("private-192", "Private 192.168/16", 220, "IP-CIDR", "192.168.0.0/16"),
    UnresolvedRule("geoip-ru", "Russian IP ranges", 300, "GEOIP", "RU"),
    PolicyRule("catch-all", "Default route", true, 1000, MATCH, SMART)]

  function DefaultRules(): seq<PolicyRule> {
    seq(|CATEGORIES|, i requires 0 <= i < |CATEGORIES| => GeositeRule(i)) + OTHER_RULES
  }

  function Default(): ClientPolicy {
    ClientPolicy(DefaultPools(), DefaultRules())
  }

  // ------------------------------------------------------------------
  // The pools are valid

  /** References that always go down some rank form no cycle. */
  lemma RankedIsAcyclic(g: Graph, rank: string -> nat)
    requires forall a, b :: Edge(g, a, b) ==> rank(b) < rank(a)
    ensures Acyclic(g)
  {
    forall a | a in g ensures !Leads(g, a, a) {
      if Leads(g, a, a) {
        var m :| Edge(g, a, m) && Reaches(g, m, a);
        var p :| Walk(g, p) && p[0] == m && p[|p| - 1] == a;
        WalkGoesDown(g, rank, p, |p| - 1);
      }
    }
  }

  lemma {:induction false} WalkGoesDown(g: Graph, rank: string -> nat, p: seq<string>, k: nat)
    requires forall a, b :: Edge(g, a, b) ==> rank(b) < rank(a)
    requires Walk(g, p) && k < |p|
    ensures rank(p[k]) <= rank(p[0])
  {
    if k > 0 {
      WalkGoesDown(g, rank, p, k - 1);
      assert Edge(g, p[k - 1], p[k - 1 + 1]);
    }
  }

  function Rank(id: string): nat {
    if id == MANUAL then 2 else if id == SMART then 1 else 0
  }

  lemma DefaultGraphAcyclic()
    ensures Acyclic(PoolGraph(DefaultPools()))
  {
    var g := PoolGraph(DefaultPools());
    forall a, b | Edge(g, a, b) ensures Rank(b) < Rank(a) {
      GraphOf(DefaultPools(), a);
      var pool := FindPool(DefaultPools(), a).value;
      DefaultPoolChildren(pool, b);
    }
    RankedIsAcyclic(g, Rank);
  }

  lemma DefaultPoolChildren(pool: TransportPool, child: string)
    requires pool in DefaultPools() && child in Children(pool)
    ensures Rank(child) < Rank(pool.id)
  {
    assert ByPool(child) in pool.members;
  }

  lemma {:induction false} AsciiBytes(s: string)
    requires forall i :: 0 <= i < |s| ==> s[i] < '\U{80}'
    ensures ByteLength(s) == |s|
  {
    if s != [] {
      AsciiBytes(s[1..]);
    }
  }

  /** A text that starts with a visible character is not blank. */
  lemma VisibleIsNotBlank(s: string)
    requires s != [] && !IsSpace(s[0])
    ensures Trim(s) != []
  {
    EndKeepsStart(s);
  }

  lemma {:induction false} EndKeepsStart(s: string)
    requires s != [] && !IsSpace(s[0])
    ensures TrimEnd(s) != []
  {
    if IsSpace(s[|s| - 1]) {
      EndKeepsStart(s[..|s| - 1]);
    }
  }

  predicate Visible(c: char) {
    AsciiAlphanumeric(c) || c in "-./"
  }

  predicate Clean(s: string) {
    s != [] && forall i :: 0 <= i < |s| ==> Visible(s[i])
  }

  lemma PlainNameIsValid(name: string)
    requires 0 < |name| <= 80 && Visible(name[0]) && forall i :: 0 <= i < |name| ==> name[i] == ' ' || Visible(name[i])
    ensures ValidDisplayName(name)
  {
    AsciiBytes(name);
    VisibleIsNotBlank(name);
  }

  const HEALTH_URL := "https://" + "www.gstatic" + ".com/" + "generate_204"

  predicate Printable(s: string) {
    forall i :: 0 <= i < |s| ==> Visible(s[i]) || s[i] == ',' || s[i] == ':' || s[i] == '_'
  }

  lemma HealthUrlIsValid()
    ensures ValidUrl(HEALTH_URL)
  {
    var scheme, host, domain, path := "https://", "www.gstatic", ".com/", "generate_204";
    assert HEALTH_URL == scheme + (host + domain + path);
    assert Printable(scheme) && Printable(host) && Printable(domain) && Printable(path);
    PrintableUrl(HEALTH_URL, host + domain + path);
  }

  lemma PrintableUrl(url: string, rest: string)
    requires url == "https://" + rest && |url| <= 512 && Printable(url)
    ensures ValidUrl(url)
  {
    hide ByteLength, HasControl, StripPrefix;
    AsciiBytes(url);
    NoControl(url);
  }

  lemma DefaultPoolIds()
    ensures EnabledIds(DefaultPools()) == {FAST, REST, SMART, MANUAL}
  {
    var pools := DefaultPools();
    assert pools[0].id == FAST && pools[1].id == REST && pools[2].id == SMART && pools[3].id == MANUAL;
    assert forall p :: p in pools ==> p.id in {FAST, REST, SMART, MANUAL};
    assert pools[0] in pools && pools[1] in pools && pools[2] in pools && pools[3] in pools;
  }

  lemma AutomaticPoolValid(profiles: seq<Profile>, id: string, kind: PoolKind, members: seq<PoolMember>, timeout: nat,
                           tolerance: Option<nat>, priority: int)
    requires members != [] && timeout > 0
    requires forall i :: 0 <= i < |members| ==> ValidMember(Default(), profiles, members[i])
    ensures ValidPool(Default(), profiles, AutomaticPool(id, kind, members, timeout, tolerance, priority))
  {
    hide ValidUrl, ValidMember;
    HealthUrlIsValid();
  }

  lemma DefaultPoolsValid(profiles: seq<Profile>)
    ensures ValidPools(Default(), profiles)
  {
    hide ValidPool, ValidDisplayName, ValidPolicyId, PoolGraph, DefaultPools, DefaultRules, DistinctPools;
    DefaultGraphAcyclic();
    DefaultPoolsDistinct();
    forall p | p in DefaultPools() ensures ValidPolicyId(p.id) && ValidDisplayName(p.displayName) && ValidPool(Default(), profiles, p) {
      DefaultNamesValid(p);
      DefaultPoolValid(profiles, p);
    }
  }

  lemma DefaultPoolsDistinct()
    ensures DistinctPools(DefaultPools())
  {
    var pools := DefaultPools();
    assert pools[0].id == FAST && pools[1].id == REST && pools[2].id == SMART && pools[3].id == MANUAL;
  }

  lemma DefaultPoolValid(profiles: seq<Profile>, p: TransportPool)
    requires p in DefaultPools()
    ensures ValidPool(Default(), profiles, p)
  {
    hide ValidPool, DefaultRules;
    var i :| 0 <= i < 4 && DefaultPools()[i] == p;
    if i < 3 {
      AutomaticPoolsValid(profiles, i);
    } else {
      ManualPoolValid(profiles);
    }
  }

  lemma DefaultNamesValid(p: TransportPool)
    requires p in DefaultPools()
    ensures ValidPolicyId(p.id) && ValidDisplayName(p.displayName)
  {
    hide ValidDisplayName;
    PlainNameIsValid(FAST);
    PlainNameIsValid(REST);
    PlainNameIsValid(SMART);
    PlainNameIsValid(MANUAL);
  }

  lemma AutomaticPoolsValid(profiles: seq<Profile>, i: nat)
    requires i < 3
    ensures ValidPool(Default(), profiles, DefaultPools()[i])
  {
    hide ValidPool, DefaultRules;
    DefaultPoolIds();
    AutomaticPoolValid(profiles, FAST, UrlTest, [ByRole(Speed)], 500, Some(50), 100);
    AutomaticPoolValid(profiles, REST, UrlTest, [ExceptRole(Speed)], 3000, Some(50), 110);
    AutomaticPoolValid(profiles, SMART, PoolKind.Fallback, [ByPool(FAST), ByPool(REST)], 3000, None, 120);
  }

  lemma ManualPoolValid(profiles: seq<Profile>)
    ensures ValidPool(Default(), profiles, DefaultPools()[3])
  {
    hide DefaultRules;
    DefaultPoolIds();
  }

  // ------------------------------------------------------------------
  // The rules are valid

  lemma TrimIdentity(s: string)
    requires s != [] && !IsSpace(s[0]) && !IsSpace(s[|s| - 1])
    ensures Trim(s) == s
  {
  }

  lemma NoControl(s: string)
    requires forall i :: 0 <= i < |s| ==> Visible(s[i]) || s[i] == ',' || s[i] == ':' || s[i] == '_'
    ensures !HasControl(s) && '\n' !in s
  {
  }

  lemma CleanFacts(s: string)
    requires Clean(s)
    ensures ',' !in s && '\n' !in s && !HasControl(s) && Trim(s) == s && ByteLength(s) == |s| && LegalTarget(s)
  {
    hide Trim, ByteLength, HasControl;
    assert Visible(s[0]) && Visible(s[|s| - 1]);
    AsciiBytes(s);
    TrimIdentity(s);
    NoControl(s);
  }

  /** A kind, a value and possibly the modifier. */
  function Condition(kind: string, value: string, modifier: bool): string {
    Join([kind, value] + (if modifier then [NO_RESOLVE] else []), ',')
  }

  lemma ConditionShape(kind: string, value: string, modifier: bool)
    ensures Condition(kind, value, modifier) == kind + "," + if modifier then value + "," + NO_RESOLVE else value
  {
    assert [kind, value, NO_RESOLVE][1..] == [value, NO_RESOLVE] && [value, NO_RESOLVE][1..] == [NO_RESOLVE];
    assert [kind, value][1..] == [value];
    assert Join([NO_RESOLVE], ',') == NO_RESOLVE && Join([value], ',') == value;
    assert Join([value, NO_RESOLVE], ',') == value + [','] + NO_RESOLVE;
    assert [kind, value] + [] == [kind, value] && [kind, value] + [NO_RESOLVE] == [kind, value, NO_RESOLVE];
  }

  lemma ConditionFacts(kind: string, value: string, modifier: bool)
    requires Clean(kind) && Clean(value) && |kind| + |value| <= 100
    ensures var c := Condition(kind, value, modifier);
            && c != [] && c[0] != '#' && ',' in c && '\n' !in c && !HasControl(c) && ByteLength(c) <= 120 && Trim(c) == c
            && Fields(c) == [kind, value] + (if modifier then [NO_RESOLVE] else [])
  {
    hide Split, Condition, Trim, ByteLength, HasControl, LegalTarget;
    var c := Condition(kind, value, modifier);
    ConditionShape(kind, value, modifier);
    assert c[|kind|] == ',';
    assert Visible(c[0]) && Visible(c[|c| - 1]);
    assert Clean(NO_RESOLVE);
    AsciiBytes(c);
    TrimIdentity(c);
    NoControl(c);
    ConditionFields(kind, value, modifier);
  }

  lemma ConditionFields(kind: string, value: string, modifier: bool)
    requires Clean(kind) && Clean(value)
    ensures Fields(Condition(kind, value, modifier)) == [kind, value] + (if modifier then [NO_RESOLVE] else [])
  {
    hide Split, Trim, ByteLength, HasControl, LegalTarget, Join;
    CleanFacts(kind);
    CleanFacts(value);
    assert Clean(NO_RESOLVE);
    CleanFacts(NO_RESOLVE);
    SplitJoin([kind, value] + (if modifier then [NO_RESOLVE] else []), ',');
  }

  lemma ConditionJudged(kind: string, value: string, modifier: bool)
    requires Clean(kind) && Clean(value) && |kind| + |value| <= 100 && ClassicalKind(kind) && (modifier ==> NoResolveKind(kind))
    ensures Judge(Condition(kind, value, modifier)) == Keep(Condition(kind, value, modifier))
  {
    hide Fields, ClassicalKind, NoResolveKind, Condition, Trim, ByteLength, HasControl;
    ConditionFacts(kind, value, modifier);
    LowerModifier();
  }

  lemma LowerModifier()
    ensures Lower(NO_RESOLVE) == NO_RESOLVE
  {
  }

  lemma ConditionValidated(kind: string, value: string, modifier: bool)
    requires Clean(kind) && Clean(value) && |kind| + |value| <= 100 && ClassicalKind(kind) && (modifier ==> NoResolveKind(kind))
    ensures Validated(Condition(kind, value, modifier)) == Some([Condition(kind, value, modifier)])
  {
    hide Split, ClassicalKind, NoResolveKind, Condition, Judge, Trim, Fields, ByteLength, HasControl;
    var c := Condition(kind, value, modifier);
    ConditionFacts(kind, value, modifier);
    ConditionJudged(kind, value, modifier);
    SplitHead(c, [], '\n');
    assert Lines(c) == [c] by {
      assert StripReturns([]) == [];
    }
    assert [c][..0] == [] && [c][0] == c;
    assert KeptLines([]) == Some([]);
    assert KeptLines([c]) == Some([] + [c]);
  }

  lemma ConditionCompletes(kind: string, value: string, modifier: bool, target: string)
    requires Clean(kind) && Clean(value) && |kind| + |value| <= 100 && ClassicalKind(kind) && (modifier ==> NoResolveKind(kind))
    requires Clean(target) && LowerChar(value[0]) != 'n'
    ensures ClassicalRuleWithTarget(Condition(kind, value, modifier), target).Some?
  {
    hide ClassicalKind, NoResolveKind, Condition, Trim, Fields, Validated, ByteLength, HasControl;
    CleanFacts(target);
    ConditionFacts(kind, value, modifier);
    ConditionValidated(kind, value, modifier);
    assert Lower(value)[0] != 'n' && NO_RESOLVE[0] == 'n';
    LowerModifier();
    assert ([kind, value] + [NO_RESOLVE])[..2] == [kind, value];
  }

  predicate GoodCategory(c: string) {
    0 < |c| <= 21 && LowerChar(c[0]) != 'n' && forall i :: 0 <= i < |c| ==> AsciiAlphanumeric(c[i]) || c[i] == '-'
  }

  lemma DomesticAreGood(c: string)
    requires c in DOMESTIC
    ensures GoodCategory(c)
  {
  }

  lemma ServicesAreGood(c: string)
    requires c in SERVICES
    ensures GoodCategory(c)
  {
  }

  lemma MediaAreGood(c: string)
    requires c in MEDIA
    ensures GoodCategory(c)
  {
  }

  /** Length, first and last character tell the categories apart. */
  function Position(c: string): int
    requires c != []
  {
    var n, first, last := |c|, c[0], c[|c| - 1];
    if n == 7 then 0 else if n == 21 then 1 else if n == 15 && last == 'u' then 2 else if n == 8 then 3
    else if n == 11 && first == 'r' then 4 else if n == 10 && last == 'e' then 5 else if n == 10 then 6
    else if n == 6 && last == 'n' then 7 else if n == 15 then 8 else if n == 12 && last == 't' then 9
    else if n == 5 && last == 'v' then 10 else if n == 6 && last == 'x' then 11 else if n == 12 then 12
    else if n == 2 && first == 'v' then 13 else if n == 4 && first == 'o' && last == 'n' then 14 else if n == 11 then 15
    else if n == 2 && first == 'x' then 16 else if n == 5 then 17 else if n == 4 && first == 'd' then 18 else if n == 6 then 19
    else if n == 2 then 20 else if n == 4 && first == 'o' then 21 else if n == 4 && first == 'w' then 22 else 23
  }

  lemma DomesticPositions()
    ensures forall i :: 0 <= i < |DOMESTIC| ==> DOMESTIC[i] != [] && Position(DOMESTIC[i]) == i
  {
  }

  lemma ServicesPositions()
    ensures forall i :: 0 <= i < |SERVICES| ==> SERVICES[i] != [] && Position(SERVICES[i]) == 8 + i
  {
  }

  lemma MediaPositions()
    ensures forall i :: 0 <= i < |MEDIA| ==> MEDIA[i] != [] && Position(MEDIA[i]) == 16 + i
  {
  }

  lemma CategoriesAreGood()
    ensures |CATEGORIES| == 24
    ensures forall i :: 0 <= i < 24 ==> GoodCategory(CATEGORIES[i]) && Position(CATEGORIES[i]) == i
  {
    hide GoodCategory, Position;
    DomesticPositions();
    ServicesPositions();
    MediaPositions();
    forall i | 0 <= i < 24 ensures GoodCategory(CATEGORIES[i]) && CATEGORIES[i] != [] && Position(CATEGORIES[i]) == i {
      if i < 8 {
        assert CATEGORIES[i] == DOMESTIC[i];
        DomesticAreGood(DOMESTIC[i]);
      } else if i < 16 {
        assert CATEGORIES[i] == SERVICES[i - 8];
        ServicesAreGood(SERVICES[i - 8]);
      } else {
        assert CATEGORIES[i] == MEDIA[i - 16];
        MediaAreGood(MEDIA[i - 16]);
      }
    }
  }

  lemma CompletedIsValid(profiles: seq<Profile>, rule: PolicyRule, kind: string, value: string, modifier: bool)
    requires rule.condition == Condition(kind, value, modifier) && rule.target == DIRECT
    requires Clean(kind) && Clean(value) && |kind| + |value| <= 100 && ClassicalKind(kind) && (modifier ==> NoResolveKind(kind))
    requires LowerChar(value[0]) != 'n'
    ensures ValidRule(Default(), profiles, rule)
  {
    hide ClassicalKind, NoResolveKind, Condition, Trim, Fields, ByteLength, HasControl, ClassicalRuleWithTarget, DefaultPools, DefaultRules;
    ConditionFacts(kind, value, modifier);
    assert Clean(DIRECT);
    ConditionCompletes(kind, value, modifier, DIRECT);
  }

  lemma GeositeValid(profiles: seq<Profile>, i: nat)
    requires i < 24
    ensures var r := GeositeRule(i);
            ValidPolicyId(r.id) && ValidDisplayName(r.displayName) && ValidRule(Default(), profiles, r)
  {
    hide ValidRule, ValidDisplayName, Condition, Position, DefaultRules, CATEGORIES, Trim;
    CategoriesAreGood();
    var c, r := CATEGORIES[i], GeositeRule(i);
    GeositeNames(c);
    ConditionShape("GEOSITE", c, false);
    assert ClassicalKind("GEOSITE");
    CompletedIsValid(profiles, r, "GEOSITE", c, false);
  }

  lemma GeositeNames(c: string)
    requires GoodCategory(c)
    ensures ValidPolicyId("direct-geosite-" + c) && ValidDisplayName("Direct geosite " + c) && Clean(c)
  {
    hide ValidDisplayName;
    PlainNameIsValid("Direct geosite " + c);
  }

  lemma RangeNames(i: nat)
    requires i < 3
    ensures ValidPolicyId(OTHER_RULES[i].id) && ValidDisplayName(OTHER_RULES[i].displayName)
  {
    hide ValidDisplayName;
    PlainNameIsValid("Private 10/8");
    PlainNameIsValid("Private 172.16/12");
    PlainNameIsValid("Private 192.168/16");
  }

  lemma OtherNames(i: nat)
    requires 3 <= i < 5
    ensures ValidPolicyId(OTHER_RULES[i].id) && ValidDisplayName(OTHER_RULES[i].displayName)
  {
    hide ValidDisplayName;
    PlainNameIsValid("Russian IP ranges");
    PlainNameIsValid("Default route");
  }

  lemma UnresolvedValid(profiles: seq<Profile>, rule: PolicyRule, kind: string, value: string)
    requires rule == UnresolvedRule(rule.id, rule.displayName, rule.priority, kind, value)
    requires Clean(kind) && Clean(value) && |kind| + |value| <= 100 && ClassicalKind(kind) && NoResolveKind(kind)
    requires LowerChar(value[0]) != 'n'
    ensures ValidRule(Default(), profiles, rule)
  {
    hide ValidRule, Condition, ClassicalKind, NoResolveKind, DefaultRules;
    ConditionShape(kind, value, true);
    CompletedIsValid(profiles, rule, kind, value, true);
  }

  lemma PrivateRangesValid(profiles: seq<Profile>)
    ensures forall i :: 0 <= i < 3 ==> ValidRule(Default(), profiles, OTHER_RULES[i])
  {
    hide ValidRule, DefaultRules;
    assert ClassicalKind("IP-CIDR") && NoResolveKind("IP-CIDR");
    UnresolvedValid(profiles, OTHER_RULES[0], "IP-CIDR", "10.0.0.0/8");
    UnresolvedValid(profiles, OTHER_RULES[1], "IP-CIDR", "172.16.0.0/12");
    UnresolvedValid(profiles, OTHER_RULES[2], "IP-CIDR", "192.168.0.0/16");
  }

  lemma CountryValid(profiles: seq<Profile>)
    ensures ValidRule(Default(), profiles, OTHER_RULES[3])
  {
    hide ValidRule, DefaultRules;
    assert ClassicalKind("GEOIP") && NoResolveKind("GEOIP");
    UnresolvedValid(profiles, OTHER_RULES[3], "GEOIP", "RU");
  }

  lemma CatchAllValid(profiles: seq<Profile>)
    ensures ValidRule(Default(), profiles, OTHER_RULES[4])
  {
    DefaultPoolIds();
    TrimIdentity(MATCH);
  }

  /** Where a default rule stands. */
  lemma DefaultRuleAt(i: nat)
    requires i < |DefaultRules()|
    ensures |DefaultRules()| == 29 && DefaultRules()[i] == if i < 24 then GeositeRule(i) else OTHER_RULES[i - 24]
  {
    hide GeositeRule, CATEGORIES;
    CategoriesAreGood();
  }

  lemma DefaultRulesDistinct()
    ensures DistinctRules(DefaultRules())
  {
    hide DefaultRules, OTHER_RULES;
    var rules := DefaultRules();
    forall i, k | 0 <= i < k < |rules| ensures rules[i].id != rules[k].id {
      DefaultRuleAt(i);
      DefaultRuleAt(k);
      if k < 24 {
        GeositeIdsDistinct(i, k);
      } else if i < 24 {
        OtherIds(k - 24, k - 24);
        assert GeositeRule(i).id[0] == 'd';
      } else {
        OtherIds(i - 24, k - 24);
      }
    }
  }

  lemma GeositeIdsDistinct(i: nat, k: nat)
    requires i < k < 24
    ensures GeositeRule(i).id != GeositeRule(k).id
  {
    hide Position, CATEGORIES, GoodCategory;
    CategoriesAreGood();
    assert GeositeRule(i).id[15..] == CATEGORIES[i] && GeositeRule(k).id[15..] == CATEGORIES[k];
  }

  lemma OtherIds(i: nat, k: nat)
    requires i <= k < 5
    ensures OTHER_RULES[i].id != [] && OTHER_RULES[i].id[0] != 'd'
    ensures i < k ==> OTHER_RULES[i].id != OTHER_RULES[k].id
  {
    assert "private-172"[9] != "private-192"[9];
  }

  lemma DefaultRulesValid(profiles: seq<Profile>)
    ensures ValidRules(Default(), profiles)
  {
    hide ValidRule, ValidDisplayName, ValidPolicyId, DefaultRules, GeositeRule, OTHER_RULES, DistinctRules;
    var rules := DefaultRules();
    DefaultRulesDistinct();
    forall r | r in rules ensures ValidPolicyId(r.id) && ValidDisplayName(r.displayName) && ValidRule(Default(), profiles, r) {
      var i :| 0 <= i < |rules| && rules[i] == r;
      DefaultRuleAt(i);
      if i < 24 {
        GeositeValid(profiles, i);
      } else {
        if i < 27 {
          RangeNames(i - 24);
          PrivateRangesValid(profiles);
        } else if i == 27 {
          OtherNames(3);
          CountryValid(profiles);
        } else {
          OtherNames(4);
          CatchAllValid(profiles);
        }
      }
    }
  }

  /** The default policy is valid whatever the profiles are. */
  lemma DefaultIsValid(profiles: seq<Profile>)
    ensures Valid(Default(), profiles)
  {
    hide ValidPools, ValidRules;
    DefaultPoolsValid(profiles);
    DefaultRulesValid(profiles);
  }

  // ------------------------------------------------------------------
  // What the default pools contain

  predicate EnabledWith(profiles: seq<Profile>, speed: bool, name: string) {
    exists i :: 0 <= i < |profiles| && profiles[i].enabled && (profiles[i].role == Speed <==> speed) && profiles[i].name == name
  }

  predicate AnyEnabledWith(profiles: seq<Profile>, speed: bool) {
    exists i :: 0 <= i < |profiles| && profiles[i].enabled && (profiles[i].role == Speed <==> speed)
  }

  lemma RoleMembers(profiles: seq<Profile>, speed: bool, name: string)
    ensures Selects(profiles, if speed then ByRole(Speed) else ExceptRole(Speed), name) <==> EnabledWith(profiles, speed, name)
  {
    var m := if speed then ByRole(Speed) else ExceptRole(Speed);
    if Selects(profiles, m, name) {
      var p :| p in profiles && Picks(p, m) && p.name == name;
      var i :| 0 <= i < |profiles| && profiles[i] == p;
      assert profiles[i].enabled;
    }
    if EnabledWith(profiles, speed, name) {
      var i :| 0 <= i < |profiles| && profiles[i].enabled && (profiles[i].role == Speed <==> speed) && profiles[i].name == name;
      assert profiles[i] in profiles && Picks(profiles[i], m);
    }
  }

  lemma RolePoolSelectsSome(profiles: seq<Profile>, speed: bool)
    ensures SelectsSome(profiles, DefaultPools()[if speed then 0 else 1]) <==> AnyEnabledWith(profiles, speed)
  {
    hide Selects;
    var m := if speed then ByRole(Speed) else ExceptRole(Speed);
    var pool := DefaultPools()[if speed then 0 else 1];
    assert pool.members == [m];
    if SelectsSome(profiles, pool) {
      var x, name :| x in pool.members && Selects(profiles, x, name);
      RoleMembers(profiles, speed, name);
    }
    if AnyEnabledWith(profiles, speed) {
      var i :| 0 <= i < |profiles| && profiles[i].enabled && (profiles[i].role == Speed <==> speed);
      RoleMembers(profiles, speed, profiles[i].name);
      assert m in pool.members && Selects(profiles, m, profiles[i].name);
    }
  }

  /** The default policy is valid, and resolves if and only if some enabled profile is fast and some other is not. */
  lemma DefaultResolvesExactly(profiles: seq<Profile>)
    ensures Valid(Default(), profiles)
    ensures ResolveEach(profiles, Default().pools).Some? <==> AnyEnabledWith(profiles, true) && AnyEnabledWith(profiles, false)
  {
    hide SelectsSome, AnyEnabledWith, ResolveEach, Valid, DefaultRules;
    var pools := DefaultPools();
    DefaultIsValid(profiles);
    ResolvesExactly(profiles, pools);
    RolePoolSelectsSome(profiles, true);
    RolePoolSelectsSome(profiles, false);
    assert pools[0] in pools && pools[1] in pools;
    PoolsOfPoolsSelectSome(profiles);
    assert forall p :: p in pools ==> p == pools[0] || p == pools[1] || p == pools[2] || p == pools[3];
  }

  /** With the default policy a subscription is generated if and only if some profile that can be rendered is fast and
      some other is not. */
  lemma DefaultGenerates(runtimes: Runtimes, profiles: seq<Profile>)
    ensures var available := AvailableProfiles(runtimes, profiles);
            Generates(Default(), available) <==> AnyEnabledWith(available, true) && AnyEnabledWith(available, false)
  {
    hide Valid, AnyEnabledWith, ResolveEach, DefaultPools, DefaultRules, SelectsSome, TargetsOffered, TargetsLegal;
    var available := AvailableProfiles(runtimes, profiles);
    DefaultResolvesExactly(available);
    ResolvesExactly(available, DefaultPools());
    DefaultTargets(available);
    if AnyEnabledWith(available, true) {
      NotEmpty(available);
    }
  }

  lemma NotEmpty(profiles: seq<Profile>)
    requires AnyEnabledWith(profiles, true)
    ensures profiles != []
  {
  }

  lemma DefaultTargets(profiles: seq<Profile>)
    ensures TargetsOffered(Default(), profiles) && TargetsLegal(Default(), profiles)
  {
    hide StripPrefix, DefaultRules, LegalTarget, CAPABILITY;
    forall r | r in DefaultRules() ensures TargetOf(profiles, r.target) == Some(r.target) && Offered(profiles, r.target) && LegalTarget(r.target) {
      var i :| 0 <= i < |DefaultRules()| && DefaultRules()[i] == r;
      DefaultRuleTarget(i);
      CleanFacts(r.target);
      NoCapability(r.target);
    }
  }

  lemma DefaultRuleTarget(i: nat)
    requires i < |DefaultRules()|
    ensures DefaultRules()[i].target in {DIRECT, SMART} && Clean(DefaultRules()[i].target)
  {
    hide DefaultRules;
    DefaultRuleAt(i);
    assert Clean(DIRECT) && Clean(SMART);
  }

  lemma NoCapability(target: string)
    requires target in {DIRECT, SMART}
    ensures StripPrefix(target, CAPABILITY).None?
  {
    assert CAPABILITY[0] == 'c' && target[0] != 'c';
  }

  lemma PoolsOfPoolsSelectSome(profiles: seq<Profile>)
    ensures SelectsSome(profiles, DefaultPools()[2]) && SelectsSome(profiles, DefaultPools()[3])
  {
    var smart, manual := DefaultPools()[2], DefaultPools()[3];
    assert ByPool(FAST) in smart.members && ByPool(FAST) in manual.members;
    assert Selects(profiles, ByPool(FAST), FAST);
  }

  /** FAST-AUTO and REST-AUTO together hold every enabled profile, and with distinct names none twice. */
  lemma DefaultPartition(profiles: seq<Profile>)
    ensures var fast, rest := Resolve(profiles, DefaultPools()[0]).members, Resolve(profiles, DefaultPools()[1]).members;
            && NoDuplicates(fast) && NoDuplicates(rest)
            && (forall name :: name in fast <==> EnabledWith(profiles, true, name))
            && (forall name :: name in rest <==> EnabledWith(profiles, false, name))
            && (forall name :: name in fast || name in rest <==> Available(profiles, name))
            && (DistinctEnabled(profiles) ==> forall name :: !(name in fast && name in rest))
  {
    hide Resolve, Selects;
    var fast, rest := Resolve(profiles, DefaultPools()[0]).members, Resolve(profiles, DefaultPools()[1]).members;
    ResolvedMembers(profiles, DefaultPools()[0]);
    ResolvedMembers(profiles, DefaultPools()[1]);
    assert DefaultPools()[0].members == [ByRole(Speed)] && DefaultPools()[1].members == [ExceptRole(Speed)];
    forall name ensures (name in fast <==> EnabledWith(profiles, true, name)) && (name in rest <==> EnabledWith(profiles, false, name)) {
      RoleMembers(profiles, true, name);
      RoleMembers(profiles, false, name);
    }
    forall name ensures EnabledWith(profiles, true, name) || EnabledWith(profiles, false, name) <==> Available(profiles, name) {
      EitherRole(profiles, name);
    }
  }

  lemma EitherRole(profiles: seq<Profile>, name: string)
    ensures EnabledWith(profiles, true, name) || EnabledWith(profiles, false, name) <==> Available(profiles, name)
  {
    if Available(profiles, name) {
      var i :| 0 <= i < |profiles| && profiles[i].enabled && profiles[i].name == name;
      assert EnabledWith(profiles, profiles[i].role == Speed, name);
    }
  }

  ghost predicate DistinctEnabled(profiles: seq<Profile>) {
    forall i, k :: 0 <= i < k < |profiles| && profiles[i].enabled && profiles[k].enabled ==> profiles[i].name != profiles[k].name
  }

  /** Without an enabled fast profile no default pool is shown as unresolved, and none of them is generated. */
  lemma UnresolvedPoolsWitness(input: Inputs)
    requires input.policy == Default() && !AnyEnabledWith(input.profiles, true)
    ensures forall id :: id in DescribePools(input) ==> DescribePools(input)[id].state == Dynamic
    ensures ResolveEach(input.profiles, input.policy.pools).None? && !PoolsShownTruly(input)
  {
    hide Valid, ResolveEach, DescribePools, PoolsShownTruly, AnyEnabledWith, DefaultPools, DefaultRules;
    DefaultIsValid(input.profiles);
    DefaultResolvesExactly(input.profiles);
    PoolsShownExactly(input);
    forall id | id in DescribePools(input) ensures DescribePools(input)[id].state == Dynamic {
      DescribedIsEnabled(input, id);
      ValidPoolsShownDynamic(input, id);
    }
  }
}
