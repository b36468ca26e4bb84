/** Runtime registry and capability selection. */
module Adapter {
  import opened Prelude
  import opened Text
  import opened Desired

  /** Answer of a runtime probe; `Broken` is an error of the probe itself. */
  datatype Probe = Yes | No | Broken

  datatype Core = Core(
    id: CoreId, capabilities: set<string>, priority: int,
    installed: Probe, compatible: set<string> -> Probe)

  predicate ValidManifest(core: Core) {
    ValidAdapterId(core.id) && core.capabilities != {} && -1000 <= core.priority <= 1000
    && forall c :: c in core.capabilities ==> ValidAdapterId(c)
  }

  /** Adapter-ID order: how a BTreeMap iterates. */
  ghost predicate Sorted(cores: seq<Core>) {
    forall i, k :: 0 <= i < k < |cores| ==> Below(cores[i].id, cores[k].id)
  }

  function Lookup(cores: seq<Core>, id: CoreId): (r: Option<Core>)
    ensures r.Some? ==> r.value in cores && r.value.id == id
    ensures r.None? ==> forall c :: c in cores ==> c.id != id
  {
    if cores == [] then None else if cores[0].id == id then Some(cores[0]) else Lookup(cores[1..], id)
  }

  predicate Capable(core: Core, required: set<string>) {
    required <= core.capabilities
  }

  /** The combined answer of the compatibility probe and then the installation probe. */
  function Verdict(core: Core, required: set<string>): Probe {
    if core.compatible(required).Yes? then core.installed else core.compatible(required)
  }

  /** Selection order: higher priority first, then lower ID. */
  predicate Before(a: Core, b: Core) {
    a.priority > b.priority || (a.priority == b.priority && Below(a.id, b.id))
  }

  /** The declarative outcome of selection without a preference: the first core in selection order
      that is not a clear no decides. */
  ghost predicate Chosen(cores: seq<Core>, required: set<string>, r: Result<Option<Core>>) {
    match r
    case Ok(Some(a)) =>
      a in cores && Capable(a, required) && Verdict(a, required) == Yes
      && forall b :: b in cores && Capable(b, required) && Before(b, a) ==> Verdict(b, required) == No
    case Ok(None) =>
      forall b :: b in cores && Capable(b, required) ==> Verdict(b, required) == No
    case Err =>
      exists a :: a in cores && Capable(a, required) && Verdict(a, required) == Broken
        && forall b :: b in cores && Capable(b, required) && Before(b, a) ==> Verdict(b, required) == No
  }

  /** `b` cannot be used: it is incompatible, or compatible and not installed. */
  predicate ClearNo(b: Core, required: set<string>) {
    b.compatible(required) == No || (b.compatible(required) == Yes && b.installed == No)
  }

  /** `b` comes before `a` in selection order. */
  predicate Preferred(b: Core, a: Core) {
    b.priority > a.priority || (b.priority == a.priority && Below(b.id, a.id))
  }

  /** The outcome of a selection among the cores other than `excluded`: the usable core of highest priority and then lowest
      ID, an error if a probe that would have to decide fails, and nothing if every capable core is a clear no. */
  ghost predicate BestUsable(cores: seq<Core>, required: set<string>, excluded: Option<CoreId>, r: Result<Option<Core>>) {
    match r
    case Ok(Some(a)) =>
      && a in cores && Some(a.id) != excluded && required <= a.capabilities && a.compatible(required) == Yes && a.installed == Yes
      && forall b :: b in cores && Some(b.id) != excluded && required <= b.capabilities && Preferred(b, a) ==> ClearNo(b, required)
    case Ok(None) =>
      forall b :: b in cores && Some(b.id) != excluded && required <= b.capabilities ==> ClearNo(b, required)
    case Err =>
      exists a ::
        && a in cores && Some(a.id) != excluded && required <= a.capabilities
        && (a.compatible(required) == Broken || (a.compatible(required) == Yes && a.installed == Broken))
        && forall b :: b in cores && Some(b.id) != excluded && required <= b.capabilities && Preferred(b, a) ==> ClearNo(b, required)
  }

  lemma ChosenIsBest(cores: seq<Core>, required: set<string>, r: Result<Option<Core>>)
    requires Chosen(cores, required, r)
    ensures BestUsable(cores, required, None, r)
  {
    hide Below;
  }

  lemma ChosenOthersAreBest(cores: seq<Core>, required: set<string>, excluded: CoreId, r: Result<Option<Core>>)
    requires Chosen(Without(cores, excluded), required, r)
    ensures BestUsable(cores, required, Some(excluded), r)
  {
    hide Below;
  }

  lemma BeforeTotal(a: Core, b: Core)
    requires a.id != b.id
    ensures Before(a, b) <==> !Before(b, a)
  {
    BelowTotal(a.id, b.id);
  }

  /** Selection has exactly one outcome. */
  lemma ChosenUnique(cores: seq<Core>, required: set<string>, r: Result<Option<Core>>, s: Result<Option<Core>>)
    requires Sorted(cores) && Chosen(cores, required, r) && Chosen(cores, required, s)
    ensures r == s
  {
    forall a, b | a in cores && b in cores ensures a == b || Before(a, b) || Before(b, a) {
      if a != b {
        SortedDistinct(cores, a, b);
        BeforeTotal(a, b);
      }
    }
  }

  lemma SortedDistinct(cores: seq<Core>, a: Core, b: Core)
    requires Sorted(cores) && a in cores && b in cores && a != b
    ensures a.id != b.id
  {
    var i :| 0 <= i < |cores| && cores[i] == a;
    var k :| 0 <= k < |cores| && cores[k] == b;
    BelowTotal(a.id, b.id);
    assert i < k ==> Below(cores[i].id, cores[k].id);
    assert k < i ==> Below(cores[k].id, cores[i].id);
  }

  // ------------------------------------------------------------------

  /** Stable insertion by descending priority. */
  function InsertByPriority(core: Core, sorted: seq<Core>): (r: seq<Core>)
    ensures forall x :: x in r <==> x == core || x in sorted
    ensures |r| == |sorted| + 1
  {
    if sorted == [] || sorted[0].priority <= core.priority then [core] + sorted
    else
      assert sorted == [sorted[0]] + sorted[1..];
      [sorted[0]] + InsertByPriority(core, sorted[1..])
  }

  /** The standard library's stable sort by descending priority. */
  function SortByPriority(cores: seq<Core>): (r: seq<Core>)
    ensures forall x :: x in r <==> x in cores
    ensures |r| == |cores|
  {
    if cores == [] then []
    else
      assert cores == [cores[0]] + cores[1..];
      InsertByPriority(cores[0], SortByPriority(cores[1..]))
  }

  ghost predicate Ranked(cores: seq<Core>) {
    forall i, k :: 0 <= i < k < |cores| ==> Before(cores[i], cores[k])
  }

  lemma {:induction false} InsertKeepsRank(core: Core, sorted: seq<Core>)
    requires Ranked(sorted) && forall x :: x in sorted ==> Below(core.id, x.id)
    ensures Ranked(InsertByPriority(core, sorted))
  {
    var r := InsertByPriority(core, sorted);
    if sorted == [] {
    } else if sorted[0].priority <= core.priority {
      forall k | 0 < k < |r| ensures Before(r[0], r[k]) {
        assert r[k] == sorted[k - 1] && r[k] in sorted;
        assert k - 1 > 0 ==> Before(sorted[0], sorted[k - 1]);
      }
    } else {
      var tail := InsertByPriority(core, sorted[1..]);
      InsertKeepsRank(core, sorted[1..]);
      forall k | 0 < k < |r| ensures Before(r[0], r[k]) {
        assert r[k] == tail[k - 1] && tail[k - 1] in tail;
        if r[k] != core {
          var m :| 0 <= m < |sorted[1..]| && sorted[1..][m] == r[k];
          assert Before(sorted[0], sorted[m + 1]);
        }
      }
    }
  }

  /** Sorting an ID-ordered list stably by priority puts it in selection order. */
  lemma {:induction false} SortRanks(cores: seq<Core>)
    requires Sorted(cores)
    ensures Ranked(SortByPriority(cores))
  {
    if cores != [] {
      SortRanks(cores[1..]);
      forall x | x in SortByPriority(cores[1..]) ensures Below(cores[0].id, x.id) {
        var i :| 0 <= i < |cores[1..]| && cores[1..][i] == x;
        assert Below(cores[0].id, cores[i + 1].id);
      }
      InsertKeepsRank(cores[0], SortByPriority(cores[1..]));
    }
  }

  lemma EarlierInRank(ranked: seq<Core>, i: nat, b: Core)
    requires Ranked(ranked) && i < |ranked| && b in ranked && Before(b, ranked[i])
    ensures b in ranked[..i]
  {
    var k :| 0 <= k < |ranked| && ranked[k] == b;
    BelowTotal(ranked[i].id, b.id);
    assert k < i;
  }

  function CapableCores(cores: seq<Core>, required: set<string>): (r: seq<Core>)
    ensures forall x :: x in r <==> x in cores && Capable(x, required)
  {
    if cores == [] then []
    else
      assert cores == [cores[0]] + cores[1..];
      (if Capable(cores[0], required) then [cores[0]] else []) + CapableCores(cores[1..], required)
  }

  function Without(cores: seq<Core>, excluded: CoreId): (r: seq<Core>)
    ensures forall x :: x in r <==> x in cores && x.id != excluded
  {
    if cores == [] then []
    else
      assert cores == [cores[0]] + cores[1..];
      (if cores[0].id != excluded then [cores[0]] else []) + Without(cores[1..], excluded)
  }

  lemma LookupUnique(cores: seq<Core>, c: Core)
    requires Sorted(cores) && c in cores
    ensures Lookup(cores, c.id) == Some(c)
  {
    var d := Lookup(cores, c.id).value;
    if c != d {
      SortedDistinct(cores, c, d);
    }
  }

  lemma FirstIsLowest(cores: seq<Core>)
    requires Sorted(cores) && cores != []
    ensures Sorted(cores[1..]) && forall x :: x in cores[1..] ==> Below(cores[0].id, x.id)
  {
    forall x | x in cores[1..] ensures Below(cores[0].id, x.id) {
      var i :| 0 <= i < |cores[1..]| && cores[1..][i] == x;
      assert Below(cores[0].id, cores[i + 1].id);
    }
  }

  lemma LowerFirst(first: Core, rest: seq<Core>)
    requires Sorted(rest) && forall x :: x in rest ==> Below(first.id, x.id)
    ensures Sorted([first] + rest)
  {
    hide Below;
  }

  lemma {:induction false} FiltersKeepOrder(cores: seq<Core>, required: set<string>, excluded: CoreId)
    requires Sorted(cores)
    ensures Sorted(CapableCores(cores, required)) && Sorted(Without(cores, excluded))
  {
    if cores != [] {
      hide Sorted, Below, Capable;
      FirstIsLowest(cores);
      FiltersKeepOrder(cores[1..], required, excluded);
      LowerFirst(cores[0], CapableCores(cores[1..], required));
      LowerFirst(cores[0], Without(cores[1..], excluded));
      assert [] + CapableCores(cores[1..], required) == CapableCores(cores[1..], required);
      assert [] + Without(cores[1..], excluded) == Without(cores[1..], excluded);
    }
  }

  lemma CapableDecide(cores: seq<Core>, required: set<string>, r: Result<Option<Core>>)
    requires Chosen(CapableCores(cores, required), required, r)
    ensures Chosen(cores, required, r)
  {
    hide Before, Verdict;
  }

  /** Core adapters by ID. */
  class CoreRegistry {
    var adapters: seq<Core>

    ghost predicate Valid()
      reads this
    {
      Sorted(adapters) && forall c :: c in adapters ==> ValidManifest(c)
    }

    constructor ()
      ensures Valid() && adapters == []
    {
      adapters := [];
    }

    /** Adds an adapter unless its manifest is invalid or its ID is taken. */
    method Register(core: Core) returns (ok: bool)
      requires Valid()
      modifies this
      ensures Valid()
      ensures ok <==> ValidManifest(core) && Lookup(old(adapters), core.id).None?
      ensures forall x :: x in adapters <==> x in old(adapters) || (ok && x == core)
    {
      hide Below, ValidManifest, Lookup;
      if !ValidManifest(core) || Lookup(adapters, core.id).Some? {
        return false;
      }
      var n := 0;
      while n < |adapters| && Below(adapters[n].id, core.id)
        invariant 0 <= n <= |adapters|
        invariant forall i :: 0 <= i < n ==> Below(adapters[i].id, core.id)
      {
        n := n + 1;
      }
      if n < |adapters| {
        BelowTotal(adapters[n].id, core.id);
        assert adapters[n] in adapters;
        forall k | n < k < |adapters| ensures Below(core.id, adapters[k].id) {
          BelowTransitive(core.id, adapters[n].id, adapters[k].id);
        }
      }
      assert adapters == adapters[..n] + adapters[n..];
      adapters := adapters[..n] + [core] + adapters[n..];
      return true;
    }

    /** The first core of `candidates` that is compatible and installed. */
    method FirstUsable(candidates: seq<Core>, required: set<string>) returns (r: Result<Option<Core>>)
      requires Sorted(candidates) && forall c :: c in candidates ==> Capable(c, required)
      ensures Chosen(candidates, required, r)
    {
      var ranked := SortByPriority(candidates);
      SortRanks(candidates);
      for i := 0 to |ranked|
        invariant forall k :: 0 <= k < i ==> Verdict(ranked[k], required) == No
      {
        var core := ranked[i];
        assert core in candidates;
        forall b | b in candidates && Before(b, core) ensures Verdict(b, required) == No {
          EarlierInRank(ranked, i, b);
        }
        match core.compatible(required) {
          case Broken => return Err;
          case No =>
          case Yes =>
            match core.installed {
              case Broken => return Err;
              case Yes => return Ok(Some(core));
              case No =>
            }
        }
      }
      return Ok(None);
    }

    /** Selects an installed compatible runtime, honouring a preference. */
    method Select(required: set<string>, preferred: Option<CoreId>) returns (r: Result<Option<Core>>)
      requires Valid()
      ensures preferred.None? ==> Chosen(adapters, required, r)
      ensures preferred.Some? ==>
                var p := Lookup(adapters, preferred.value);
                r == if p.Some? && Capable(p.value, required) && Verdict(p.value, required) == Yes then Ok(Some(p.value)) else Err
      ensures preferred.None? ==> BestUsable(adapters, required, None, r)
      ensures preferred.Some? ==>
                (r.Err? || (r.value.Some? && r.value.value in adapters && r.value.value.id == preferred.value))
                && (r.Ok? <==> exists a :: a in adapters && a.id == preferred.value && required <= a.capabilities
                                           && a.compatible(required) == Yes && a.installed == Yes)
    {
      forall c | c in adapters ensures Lookup(adapters, c.id) == Some(c) {
        LookupUnique(adapters, c);
      }
      if preferred.Some? {
        var p := Lookup(adapters, preferred.value);
        if p.None? {
          return Err;
        }
        if Capable(p.value, required) {
          match p.value.compatible(required) {
            case Broken => return Err;
            case No =>
            case Yes =>
              match p.value.installed {
                case Broken => return Err;
                case Yes => return Ok(p);
                case No =>
              }
          }
        }
        return Err;
      }
      FiltersKeepOrder(adapters, required, "");
      r := FirstUsable(CapableCores(adapters, required), required);
      CapableDecide(adapters, required, r);
      ChosenIsBest(adapters, required, r);
    }

    /** Selects as if core `excluded` were not registered. */
    method SelectExcluding(required: set<string>, excluded: CoreId) returns (r: Result<Option<Core>>)
      requires Valid()
      ensures Chosen(Without(adapters, excluded), required, r)
      ensures BestUsable(adapters, required, Some(excluded), r)
    {
      FiltersKeepOrder(adapters, required, excluded);
      FiltersKeepOrder(Without(adapters, excluded), required, "");
      r := FirstUsable(CapableCores(Without(adapters, excluded), required), required);
      CapableDecide(Without(adapters, excluded), required, r);
      ChosenOthersAreBest(adapters, required, excluded, r);
    }
  }

  // ------------------------------------------------------------------

  /** What graph validation and plan building use of `Select`: the core, or that there is none. */
  ghost predicate Selects(cores: seq<Core>, required: set<string>, preferred: Option<CoreId>, a: Core) {
    match preferred
    case Some(id) => Lookup(cores, id) == Some(a) && Capable(a, required) && Verdict(a, required) == Yes
    case None => Chosen(cores, required, Ok(Some(a)))
  }

  /** The registry once core `id` reports that it is not installed. */
  function Uninstalled(cores: seq<Core>, id: CoreId): (r: seq<Core>)
    ensures |r| == |cores|
    ensures forall i :: 0 <= i < |cores| ==> r[i] == if cores[i].id == id then cores[i].(installed := No) else cores[i]
  {
    if cores == [] then []
    else [if cores[0].id == id then cores[0].(installed := No) else cores[0]] + Uninstalled(cores[1..], id)
  }

  lemma UninstalledMembers(cores: seq<Core>, id: CoreId)
    ensures forall x :: x in Uninstalled(cores, id) ==>
              (x.id != id && x in cores) || (x.id == id && x.installed == No && exists y :: y in cores && x == y.(installed := No))
    ensures forall y :: y in cores ==> (if y.id == id then y.(installed := No) else y) in Uninstalled(cores, id)
  {
    var u := Uninstalled(cores, id);
    forall x | x in u
      ensures (x.id != id && x in cores) || (x.id == id && x.installed == No && exists y :: y in cores && x == y.(installed := No))
    {
      var i :| 0 <= i < |u| && u[i] == x;
      assert cores[i] in cores;
    }
    forall y | y in cores ensures (if y.id == id then y.(installed := No) else y) in u {
      var i :| 0 <= i < |cores| && cores[i] == y;
      assert u[i] in u;
    }
  }

  /** If selection works now, then after the removal of `removed` it picks exactly what
      `SelectExcluding` announces, and it works if and only if that is a core. */
  lemma RemovalPicksReplacement(cores: seq<Core>, required: set<string>, removed: CoreId, now: Core, r: Result<Option<Core>>)
    requires Sorted(cores) && Chosen(cores, required, Ok(Some(now)))
    requires Chosen(Without(cores, removed), required, r)
    ensures Chosen(Uninstalled(cores, removed), required, r)
  {
    var u, others := Uninstalled(cores, removed), Without(cores, removed);
    assert forall x :: x in others <==> x in u && x.id != removed by {
      UninstalledMembers(cores, removed);
    }
    forall b | b in u && b.id == removed && Capable(b, required)
      ensures Verdict(b, required) == No || (now in others && Before(now, b))
    {
      RemovedIsLater(cores, required, removed, now, b);
    }
    RestDecides(u, others, required, removed, now, r);
  }

  /** What the removed core reports does not matter: it is not installed, or something usable comes before it. */
  lemma RestDecides(u: seq<Core>, others: seq<Core>, required: set<string>, removed: CoreId, now: Core, r: Result<Option<Core>>)
    requires forall x :: x in others <==> x in u && x.id != removed
    requires forall b :: b in u && b.id == removed && Capable(b, required) ==> Verdict(b, required) == No || (now in others && Before(now, b))
    requires Chosen(others, required, r) && Capable(now, required) && Verdict(now, required) == Yes
    ensures Chosen(u, required, r)
  {
    hide Capable, Verdict, Before;
    forall a, b | Before(now, b) && Before(b, a) ensures Before(now, a) {
      BeforeTransitive(now, b, a);
    }
  }

  lemma BeforeTransitive(a: Core, b: Core, c: Core)
    requires Before(a, b) && Before(b, c)
    ensures Before(a, c)
  {
    if Below(a.id, b.id) && Below(b.id, c.id) {
      BelowTransitive(a.id, b.id, c.id);
    }
  }

  lemma RemovedIsLater(cores: seq<Core>, required: set<string>, removed: CoreId, now: Core, b: Core)
    requires Sorted(cores) && Chosen(cores, required, Ok(Some(now)))
    requires b in Uninstalled(cores, removed) && b.id == removed && Capable(b, required)
    ensures Verdict(b, required) == No || (now in Without(cores, removed) && Before(now, b))
  {
    UninstalledMembers(cores, removed);
    var y :| y in cores && b == y.(installed := No);
    RemovedIsNoOrLater(cores, required, now, y);
  }

  lemma RemovedIsNoOrLater(cores: seq<Core>, required: set<string>, now: Core, y: Core)
    requires Sorted(cores) && Chosen(cores, required, Ok(Some(now))) && y in cores && Capable(y, required)
    ensures !y.compatible(required).Broken? || (now.id != y.id && Before(now, y))
  {
    if y != now {
      SortedDistinct(cores, y, now);
      BeforeTotal(y, now);
    }
  }
}
