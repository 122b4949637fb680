/** The entitlement registry: lookup by name, the listing of valid service
    names, and the depth-first dependency sort that yields the enable and
    disable orders. */
module Entitlements {
  import opened Errors
  import opened Strings

  /** The declarative metadata of one entitlement class. The services it
      requires and the services that depend on it are named by their position
      in the registry. */
  datatype Entitlement = Entitlement(
    name: string,
    validNames: seq<string>,
    presentationName: string,
    isBeta: bool,
    requiredServices: seq<nat>,
    dependentServices: seq<nat>)

  /** The entitlement classes, in declaration order. */
  type Registry = seq<Entitlement>

  // ---------------------------------------------------------------------
  // entitlement_factory

  /** The scan of the registry from position `k` on. */
  function FactoryFrom(reg: Registry, name: string, k: nat): (r: Result<nat>)
    requires k <= |reg|
    ensures r.Ok? ==> k <= r.value < |reg| && name in reg[r.value].validNames
    ensures r.Ok? ==> forall j :: k <= j < r.value ==> name !in reg[j].validNames
    ensures r.Err? ==> r.error == EntitlementNotFoundError([])
    ensures r.Err? ==> forall j :: k <= j < |reg| ==> name !in reg[j].validNames
    decreases |reg| - k
  {
    if k == |reg| then Err(EntitlementNotFoundError([]))
    else if name in reg[k].validNames then Ok(k)
    else FactoryFrom(reg, name, k + 1)
  }

  /** The first entry, in declaration order, that lists `name` among its valid
      names (exact match); EntitlementNotFoundError when there is none. */
  function EntitlementFactory(reg: Registry, name: string): (r: Result<nat>)
    ensures r.Ok? ==> r.value < |reg| && name in reg[r.value].validNames
    ensures r.Ok? ==> forall j :: 0 <= j < r.value ==> name !in reg[j].validNames
    ensures r.Err? <==> forall j :: 0 <= j < |reg| ==> name !in reg[j].validNames
    ensures r.Err? ==> r.error == EntitlementNotFoundError([])
  {
    FactoryFrom(reg, name, 0)
  }

  /** `name` names some entitlement. */
  predicate Resolves(reg: Registry, name: string)
  {
    EntitlementFactory(reg, name).Ok?
  }

  /** `name` names an entitlement, and the first one it names is in beta. */
  predicate ResolvesToBeta(reg: Registry, name: string)
  {
    var f := EntitlementFactory(reg, name);
    f.Ok? && reg[f.value].isBeta
  }

  // ---------------------------------------------------------------------
  // valid_services

  function WithoutBeta(es: seq<Entitlement>): (r: seq<Entitlement>)
  {
    if |es| == 0 then []
    else (if es[0].isBeta then [] else [es[0]]) + WithoutBeta(es[1..])
  }

  /** The entries `valid_services` lists. */
  function Included(reg: Registry, allowBeta: bool): seq<Entitlement>
  {
    if allowBeta then reg else WithoutBeta(reg)
  }

  function PresentationNames(es: seq<Entitlement>): seq<string>
  {
    if |es| == 0 then [] else [es[0].presentationName] + PresentationNames(es[1..])
  }

  function AllValidNames(es: seq<Entitlement>): seq<string>
  {
    if |es| == 0 then [] else es[0].validNames + AllValidNames(es[1..])
  }

  /** The names an entry contributes to the listing. */
  function Listed(e: Entitlement, allNames: bool): seq<string>
  {
    if allNames then e.validNames else [e.presentationName]
  }

  function ListedNames(es: seq<Entitlement>, allNames: bool): seq<string>
  {
    if allNames then AllValidNames(es) else PresentationNames(es)
  }

  /** `valid_services`: beta entries are left out unless either the argument
      or the `features.allow_beta` setting allows them; the presentation names
      (or, with `allNames`, every valid name, duplicates kept) of the rest,
      sorted. */
  function ValidServices(reg: Registry, allowBeta: bool, cfgAllowBeta: bool, allNames: bool): (r: seq<string>)
    ensures Sorted(r)
    ensures multiset(r) == multiset(ListedNames(Included(reg, allowBeta || cfgAllowBeta), allNames))
  {
    SortStrings(ListedNames(Included(reg, allowBeta || cfgAllowBeta), allNames))
  }

  lemma {:induction false} ListedNamesMembers(es: seq<Entitlement>, allNames: bool, x: string)
    ensures x in ListedNames(es, allNames) <==> exists j :: 0 <= j < |es| && x in Listed(es[j], allNames)
    decreases |es|
  {
    if |es| > 0 {
      ListedNamesMembers(es[1..], allNames, x);
      assert ListedNames(es, allNames) == Listed(es[0], allNames) + ListedNames(es[1..], allNames);
      if x in ListedNames(es[1..], allNames) {
        var j :| 0 <= j < |es[1..]| && x in Listed(es[1..][j], allNames);
        assert es[1..][j] == es[j + 1];
      }
      if exists j :: 0 <= j < |es| && x in Listed(es[j], allNames) {
        var j :| 0 <= j < |es| && x in Listed(es[j], allNames);
        if j > 0 { assert es[j] == es[1..][j - 1]; }
      }
    }
  }

  lemma {:induction false} WithoutBetaMembers(es: seq<Entitlement>, e: Entitlement)
    ensures e in WithoutBeta(es) <==> e in es && !e.isBeta
    decreases |es|
  {
    if |es| > 0 {
      WithoutBetaMembers(es[1..], e);
      assert es == [es[0]] + es[1..];
    }
  }

  /** A name is listed exactly when some entry that the beta filter lets
      through contributes it. */
  lemma ValidServicesMembers(reg: Registry, allowBeta: bool, cfgAllowBeta: bool, allNames: bool, x: string)
    ensures x in ValidServices(reg, allowBeta, cfgAllowBeta, allNames) <==>
      exists j :: 0 <= j < |reg| && (allowBeta || cfgAllowBeta || !reg[j].isBeta) && x in Listed(reg[j], allNames)
  {
    var allow := allowBeta || cfgAllowBeta;
    var es := Included(reg, allow);
    var r := ValidServices(reg, allowBeta, cfgAllowBeta, allNames);
    assert x in r <==> x in multiset(r);
    ListedNamesMembers(es, allNames, x);
    if x in r {
      var j :| 0 <= j < |es| && x in Listed(es[j], allNames);
      if !allow {
        WithoutBetaMembers(reg, es[j]);
      }
      assert es[j] in reg;
      var m :| 0 <= m < |reg| && reg[m] == es[j];
    }
    if exists m :: 0 <= m < |reg| && (allow || !reg[m].isBeta) && x in Listed(reg[m], allNames) {
      var m :| 0 <= m < |reg| && (allow || !reg[m].isBeta) && x in Listed(reg[m], allNames);
      if !allow {
        WithoutBetaMembers(reg, reg[m]);
      }
      assert reg[m] in es;
      var j :| 0 <= j < |es| && es[j] == reg[m];
    }
  }

  // ---------------------------------------------------------------------
  // The dependency sort: _sort_entitlements / _sort_entitlements_visit

  datatype SortOrder = RequiredServices | DependentServices

  /** The list the visit recurses into for this sort order. */
  function Edges(e: Entitlement, so: SortOrder): seq<nat>
  {
    match so
    case RequiredServices => e.requiredServices
    case DependentServices => e.dependentServices
  }

  /** Every edge leads to a registry entry of strictly smaller rank: the
      dependency graph is acyclic, which is all that makes the visit stop. */
  ghost predicate RankedBy(reg: Registry, so: SortOrder, rank: seq<nat>)
  {
    |rank| == |reg| &&
    forall i, k :: 0 <= i < |reg| && 0 <= k < |Edges(reg[i], so)| ==>
      Edges(reg[i], so)[k] < |reg| && rank[Edges(reg[i], so)[k]] < rank[i]
  }

  ghost predicate Acyclic(reg: Registry, so: SortOrder)
  {
    exists rank :: RankedBy(reg, so, rank)
  }

  ghost predicate UniqueNames(reg: Registry)
  {
    forall i, j :: 0 <= i < j < |reg| ==> reg[i].name != reg[j].name
  }

  /** The visit of entry `i` with `order` built so far (the visited set is the
      set of names in `order`): nothing if `i` was visited, otherwise its edge
      targets in list order, then `i` itself. */
  function VisitSpec(reg: Registry, so: SortOrder, ghost rank: seq<nat>, i: nat, order: seq<string>): seq<string>
    requires RankedBy(reg, so, rank) && i < |reg|
    decreases rank[i], 1
  {
    if reg[i].name in order then order
    else ChildrenSpec(reg, so, rank, i, 0, order) + [reg[i].name]
  }

  /** The loop over the edge targets of `i`, from the `k`-th on. The guard
      tests the name of `i`, as the loop in the source does. */
  function ChildrenSpec(reg: Registry, so: SortOrder, ghost rank: seq<nat>, i: nat, k: nat, order: seq<string>): seq<string>
    requires RankedBy(reg, so, rank) && i < |reg| && k <= |Edges(reg[i], so)|
    decreases rank[i], 0, |Edges(reg[i], so)| - k
  {
    if k == |Edges(reg[i], so)| then order
    else
      var next := if reg[i].name in order then order else VisitSpec(reg, so, rank, Edges(reg[i], so)[k], order);
      ChildrenSpec(reg, so, rank, i, k + 1, next)
  }

  /** The loop over the roots, in declaration order, from the `k`-th on. */
  function RootsSpec(reg: Registry, so: SortOrder, ghost rank: seq<nat>, k: nat, order: seq<string>): seq<string>
    requires RankedBy(reg, so, rank) && k <= |reg|
    decreases |reg| - k
  {
    if k == |reg| then order else RootsSpec(reg, so, rank, k + 1, VisitSpec(reg, so, rank, k, order))
  }

  /** The depth-first post-order of the whole registry. */
  function SortSpec(reg: Registry, so: SortOrder, ghost rank: seq<nat>): seq<string>
    requires RankedBy(reg, so, rank)
  {
    RootsSpec(reg, so, rank, 0, [])
  }

  predicate NoDup(s: seq<string>)
  {
    forall p, q :: 0 <= p < q < |s| ==> s[p] != s[q]
  }

  /** Every name in `order` comes after the names of all its edge targets. */
  ghost predicate Closed(reg: Registry, so: SortOrder, order: seq<string>)
  {
    forall p, j, k ::
      (0 <= p < |order| && 0 <= j < |reg| && reg[j].name == order[p] &&
       0 <= k < |Edges(reg[j], so)| && Edges(reg[j], so)[k] < |reg|) ==>
      reg[Edges(reg[j], so)[k]].name in order[..p]
  }

  ghost predicate OnlyRegistryNames(reg: Registry, order: seq<string>)
  {
    forall p :: 0 <= p < |order| ==> exists j :: 0 <= j < |reg| && reg[j].name == order[p]
  }

  /** What the sort promises: each entry's name exactly once, nothing else,
      and every edge target before its source. */
  ghost predicate IsTopologicalOrder(reg: Registry, so: SortOrder, order: seq<string>)
  {
    && NoDup(order)
    && Closed(reg, so, order)
    && OnlyRegistryNames(reg, order)
    && forall m :: 0 <= m < |reg| ==> reg[m].name in order
  }

  /** The names `after` adds to `before` belong to entries of rank at most `bound`. */
  ghost predicate AddedBelow(reg: Registry, rank: seq<nat>, before: seq<string>, after: seq<string>, bound: int)
  {
    |rank| == |reg| &&
    forall p :: 0 <= p < |after| && after[p] !in before ==>
      exists j :: 0 <= j < |reg| && reg[j].name == after[p] && rank[j] <= bound
  }

  ghost predicate Extends(before: seq<string>, after: seq<string>)
  {
    |before| <= |after| && after[..|before|] == before
  }

  lemma AddedBelowTrans(reg: Registry, rank: seq<nat>, a: seq<string>, b: seq<string>, c: seq<string>, bound: int)
    requires AddedBelow(reg, rank, a, b, bound) && AddedBelow(reg, rank, b, c, bound)
    ensures AddedBelow(reg, rank, a, c, bound)
  {
    forall p | 0 <= p < |c| && c[p] !in a
      ensures exists j :: 0 <= j < |reg| && reg[j].name == c[p] && rank[j] <= bound
    {
      if c[p] in b {
        var q :| 0 <= q < |b| && b[q] == c[p];
      }
    }
  }

  lemma ClosedExtends(reg: Registry, so: SortOrder, order: seq<string>, i: nat)
    requires i < |reg| && UniqueNames(reg) && Closed(reg, so, order)
    requires forall k :: 0 <= k < |Edges(reg[i], so)| && Edges(reg[i], so)[k] < |reg| ==>
      reg[Edges(reg[i], so)[k]].name in order
    ensures Closed(reg, so, order + [reg[i].name])
  {
    var r := order + [reg[i].name];
    forall p, j, k | 0 <= p < |r| && 0 <= j < |reg| && reg[j].name == r[p] &&
      0 <= k < |Edges(reg[j], so)| && Edges(reg[j], so)[k] < |reg|
      ensures reg[Edges(reg[j], so)[k]].name in r[..p]
    {
      if p < |order| {
        assert r[..p] == order[..p];
      } else {
        assert j == i;
        assert r[..p] == order;
      }
    }
  }

  lemma {:induction false} VisitFacts(reg: Registry, so: SortOrder, rank: seq<nat>, i: nat, order: seq<string>)
    requires RankedBy(reg, so, rank) && UniqueNames(reg) && i < |reg|
    requires NoDup(order) && Closed(reg, so, order)
    ensures var r := VisitSpec(reg, so, rank, i, order);
      && Extends(order, r) && NoDup(r) && Closed(reg, so, r) && reg[i].name in r
      && AddedBelow(reg, rank, order, r, rank[i])
    decreases rank[i], 1
  {
    if reg[i].name !in order {
      ChildrenFacts(reg, so, rank, i, 0, order);
      var after := ChildrenSpec(reg, so, rank, i, 0, order);
      var r := after + [reg[i].name];
      ClosedExtends(reg, so, after, i);
      forall p | 0 <= p < |r| && r[p] !in order
        ensures exists j :: 0 <= j < |reg| && reg[j].name == r[p] && rank[j] <= rank[i]
      {
        if p == |after| {
          assert reg[i].name == r[p];
        } else {
          assert r[p] == after[p];
        }
      }
      assert r[..|order|] == after[..|order|];
    }
  }

  lemma {:induction false} ChildrenFacts(reg: Registry, so: SortOrder, rank: seq<nat>, i: nat, k: nat, order: seq<string>)
    requires RankedBy(reg, so, rank) && UniqueNames(reg) && i < |reg| && k <= |Edges(reg[i], so)|
    requires NoDup(order) && Closed(reg, so, order) && reg[i].name !in order
    ensures var r := ChildrenSpec(reg, so, rank, i, k, order);
      && Extends(order, r) && NoDup(r) && Closed(reg, so, r) && reg[i].name !in r
      && (forall m :: k <= m < |Edges(reg[i], so)| ==> reg[Edges(reg[i], so)[m]].name in r)
      && AddedBelow(reg, rank, order, r, rank[i] as int - 1)
    decreases rank[i], 0, |Edges(reg[i], so)| - k
  {
    var edges := Edges(reg[i], so);
    if k < |edges| {
      var c := edges[k];
      var next := VisitSpec(reg, so, rank, c, order);
      ChildStep(reg, so, rank, i, k, order);
      ChildrenFacts(reg, so, rank, i, k + 1, next);
      var r := ChildrenSpec(reg, so, rank, i, k + 1, next);
      assert r == ChildrenSpec(reg, so, rank, i, k, order);
      ChildrenCombine(reg, rank, edges, k, rank[i] as int - 1, order, next, r);
    }
  }

  /** The loop's bookkeeping: what the `k`-th visit and the rest of the loop
      add together. */
  lemma ChildrenCombine(reg: Registry, rank: seq<nat>, edges: seq<nat>, k: nat, bound: int,
                        order: seq<string>, next: seq<string>, r: seq<string>)
    requires k < |edges| && forall m :: 0 <= m < |edges| ==> edges[m] < |reg|
    requires Extends(order, next) && AddedBelow(reg, rank, order, next, bound) && reg[edges[k]].name in next
    requires Extends(next, r) && AddedBelow(reg, rank, next, r, bound)
    requires forall m :: k + 1 <= m < |edges| ==> reg[edges[m]].name in r
    ensures Extends(order, r) && AddedBelow(reg, rank, order, r, bound)
    ensures forall m :: k <= m < |edges| ==> reg[edges[m]].name in r
  {
    ExtendsKeeps(next, r, reg[edges[k]].name);
    AddedBelowTrans(reg, rank, order, next, r, bound);
    ExtendsTrans(order, next, r);
  }

  /** One step of the loop over the edge targets: visiting the `k`-th
      target adds it, and only names of lower rank than `i`. */
  lemma ChildStep(reg: Registry, so: SortOrder, rank: seq<nat>, i: nat, k: nat, order: seq<string>)
    requires RankedBy(reg, so, rank) && UniqueNames(reg) && i < |reg| && k < |Edges(reg[i], so)|
    requires NoDup(order) && Closed(reg, so, order) && reg[i].name !in order
    ensures var c := Edges(reg[i], so)[k];
      var next := VisitSpec(reg, so, rank, c, order);
      && Extends(order, next) && NoDup(next) && Closed(reg, so, next) && reg[i].name !in next
      && reg[c].name in next && AddedBelow(reg, rank, order, next, rank[i] as int - 1)
    decreases rank[i], 0, |Edges(reg[i], so)| - k, 0
  {
    var c := Edges(reg[i], so)[k];
    var next := VisitSpec(reg, so, rank, c, order);
    VisitFacts(reg, so, rank, c, order);
    NotAddedBelow(reg, rank, order, next, rank[c], i);
    AddedBelowWeaken(reg, rank, order, next, rank[c], rank[i] as int - 1);
  }

  /** An entry of higher rank than every added name was not added. */
  lemma NotAddedBelow(reg: Registry, rank: seq<nat>, before: seq<string>, after: seq<string>, bound: int, i: nat)
    requires UniqueNames(reg) && i < |reg| && AddedBelow(reg, rank, before, after, bound) && bound < rank[i]
    requires reg[i].name !in before
    ensures reg[i].name !in after
  {
    forall p | 0 <= p < |after| ensures after[p] != reg[i].name {
      if after[p] !in before {
        var j :| 0 <= j < |reg| && reg[j].name == after[p] && rank[j] <= bound;
        assert j != i;
      }
    }
  }

  lemma AddedBelowWeaken(reg: Registry, rank: seq<nat>, before: seq<string>, after: seq<string>, bound: int, bound': int)
    requires AddedBelow(reg, rank, before, after, bound) && bound <= bound'
    ensures AddedBelow(reg, rank, before, after, bound')
  {
  }

  lemma ExtendsKeeps(before: seq<string>, after: seq<string>, x: string)
    requires Extends(before, after) && x in before
    ensures x in after
  {
    var p :| 0 <= p < |before| && before[p] == x;
    assert after[p] == before[p];
  }

  lemma ExtendsTrans(a: seq<string>, b: seq<string>, c: seq<string>)
    requires Extends(a, b) && Extends(b, c)
    ensures Extends(a, c)
  {
    assert c[..|a|] == c[..|b|][..|a|];
  }

  lemma {:induction false} RootsFacts(reg: Registry, so: SortOrder, rank: seq<nat>, k: nat, order: seq<string>)
    requires RankedBy(reg, so, rank) && UniqueNames(reg) && k <= |reg|
    requires NoDup(order) && Closed(reg, so, order) && OnlyRegistryNames(reg, order)
    requires forall m :: 0 <= m < k ==> reg[m].name in order
    ensures IsTopologicalOrder(reg, so, RootsSpec(reg, so, rank, k, order))
    decreases |reg| - k
  {
    if k < |reg| {
      var next := VisitSpec(reg, so, rank, k, order);
      VisitFacts(reg, so, rank, k, order);
      RootStep(reg, rank, k, order, next);
      RootsFacts(reg, so, rank, k + 1, next);
    }
  }

  /** Visiting root `k` keeps `order` to registry names and adds root `k`. */
  lemma RootStep(reg: Registry, rank: seq<nat>, k: nat, order: seq<string>, next: seq<string>)
    requires k < |reg| == |rank| && OnlyRegistryNames(reg, order) && Extends(order, next)
    requires AddedBelow(reg, rank, order, next, rank[k]) && reg[k].name in next
    requires forall m :: 0 <= m < k ==> reg[m].name in order
    ensures OnlyRegistryNames(reg, next)
    ensures forall m :: 0 <= m < k + 1 ==> reg[m].name in next
  {
    forall p | 0 <= p < |next|
      ensures exists j :: 0 <= j < |reg| && reg[j].name == next[p]
    {
      if p < |order| { assert next[p] == order[p]; }
    }
    forall m | 0 <= m < k ensures reg[m].name in next {
      ExtendsKeeps(order, next, reg[m].name);
    }
  }

  /** The depth-first post-order is a topological order of the registry. */
  lemma SortSpecIsTopological(reg: Registry, so: SortOrder, rank: seq<nat>)
    requires RankedBy(reg, so, rank) && UniqueNames(reg)
    ensures IsTopologicalOrder(reg, so, SortSpec(reg, so, rank))
  {
    RootsFacts(reg, so, rank, 0, []);
  }

  /** The shared `visited` dict and `order` list of one sort. */
  class SortState {
    var visited: map<string, bool>
    var order: seq<string>

    /** A name is marked visited exactly when it has been appended. */
    ghost predicate Valid()
      reads this
    {
      && (forall n :: n in visited <==> n in order)
      && (forall n :: n in visited ==> visited[n])
    }

    constructor ()
      ensures Valid() && order == [] && visited == map[]
    {
      visited := map[];
      order := [];
    }

    /** `_sort_entitlements_visit`. */
    method Visit(reg: Registry, so: SortOrder, ghost rank: seq<nat>, i: nat)
      requires RankedBy(reg, so, rank) && i < |reg| && Valid()
      modifies this
      ensures Valid() && order == VisitSpec(reg, so, rank, i, old(order))
      decreases rank[i]
    {
      var name := reg[i].name;
      if name in visited {
        return;
      }
      ghost var start := order;
      var deps := Edges(reg[i], so);
      var k := 0;
      while k < |deps|
        invariant 0 <= k <= |deps| && Valid()
        invariant ChildrenSpec(reg, so, rank, i, k, order) == ChildrenSpec(reg, so, rank, i, 0, start)
      {
        if name !in visited {
          Visit(reg, so, rank, deps[k]);
        }
        k := k + 1;
      }
      order := order + [name];
      visited := visited[name := true];
    }
  }

  /** `_sort_entitlements`: visits every entry, in declaration order. */
  method SortEntitlements(reg: Registry, so: SortOrder, ghost rank: seq<nat>) returns (order: seq<string>)
    requires RankedBy(reg, so, rank)
    ensures order == SortSpec(reg, so, rank)
    ensures UniqueNames(reg) ==> IsTopologicalOrder(reg, so, order)
  {
    var state := new SortState();
    for k := 0 to |reg|
      invariant state.Valid()
      invariant RootsSpec(reg, so, rank, k, state.order) == SortSpec(reg, so, rank)
    {
      state.Visit(reg, so, rank, k);
    }
    order := state.order;
    if UniqueNames(reg) {
      SortSpecIsTopological(reg, so, rank);
    }
  }

  /** `entitlements_enable_order`: every required service before the
      entitlements that require it. */
  method EntitlementsEnableOrder(reg: Registry) returns (order: seq<string>)
    requires Acyclic(reg, RequiredServices)
    ensures UniqueNames(reg) ==> IsTopologicalOrder(reg, RequiredServices, order)
    ensures exists rank :: RankedBy(reg, RequiredServices, rank) && order == SortSpec(reg, RequiredServices, rank)
  {
    ghost var rank :| RankedBy(reg, RequiredServices, rank);
    order := SortEntitlements(reg, RequiredServices, rank);
  }

  /** `entitlements_disable_order`: every dependent service before the
      entitlements it depends on. */
  method EntitlementsDisableOrder(reg: Registry) returns (order: seq<string>)
    requires Acyclic(reg, DependentServices)
    ensures UniqueNames(reg) ==> IsTopologicalOrder(reg, DependentServices, order)
    ensures exists rank :: RankedBy(reg, DependentServices, rank) && order == SortSpec(reg, DependentServices, rank)
  {
    ghost var rank :| RankedBy(reg, DependentServices, rank);
    order := SortEntitlements(reg, DependentServices, rank);
  }
}
