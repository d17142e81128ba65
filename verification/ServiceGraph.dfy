/**
 The start order of the supervised services, and the manifest's own cycle check.
 Names are only compared and sorted, so integers stand in for them.
 */
module ServiceGraph {

  import opened Sets
  import opened Sorting

  type Name = int

  datatype Service = Service(name: Name, dependencies: seq<Name>)

  datatype Ordering = Ordered(services: seq<Service>) | Cyclic

  type Graph = map<Name, Service>

  /** `{service.name: service for service in services}`: the last of several equal names wins. */
  function ByName(services: seq<Service>): Graph {
    if services == [] then map[]
    else
      var last := services[|services| - 1];
      ByName(services[..|services| - 1])[last.name := last]
  }

  predicate Keyed(g: Graph) {
    forall n | n in g :: g[n].name == n
  }

  lemma {:induction false} ByNameKeyed(services: seq<Service>)
    ensures Keyed(ByName(services))
    ensures forall n :: n in ByName(services) <==> exists i | 0 <= i < |services| :: services[i].name == n
  {
    if services != [] {
      var k := |services| - 1;
      ByNameKeyed(services[..k]);
      forall n ensures n in ByName(services) <==> exists i | 0 <= i < |services| :: services[i].name == n {
        if n in ByName(services) && n != services[k].name {
          var i :| 0 <= i < k && services[..k][i].name == n;
          assert services[i].name == n;
        } else if i :| 0 <= i < |services| && services[i].name == n {
          if i < k { assert services[..k][i].name == n; }
        }
      }
    }
  }

  /** All the dependencies that are still waiting have left. */
  predicate IsReady(pending: Graph, n: Name)
    requires n in pending
  {
    forall d | d in pending[n].dependencies :: d !in pending
  }

  function Ready(pending: Graph): (r: set<Name>)
    ensures r <= pending.Keys
  {
    set n | n in pending && IsReady(pending, n)
  }

  // ---------- the order ----------

  function Without(g: Graph, names: set<Name>): (r: Graph)
    ensures r.Keys == g.Keys - names
    ensures names == {} ==> r == g
    ensures forall n | n in r :: r[n] == g[n]
  {
    map n | n in g && n !in names :: g[n]
  }

  lemma Shrinks(g: Graph, names: set<Name>)
    requires names <= g.Keys && names != {}
    ensures |Without(g, names)| < |g|
  {
    var r := Without(g, names);
    assert |r| == |r.Keys| && |g| == |g.Keys|;
    assert g.Keys == r.Keys + names && r.Keys !! names;
  }

  function Pick(g: Graph, names: seq<Name>): (s: seq<Service>)
    requires forall i | 0 <= i < |names| :: names[i] in g
    ensures |s| == |names| && forall i | 0 <= i < |s| :: s[i] == g[names[i]]
  {
    seq(|names|, i requires 0 <= i < |names| => g[names[i]])
  }

  /** The order as a function of the graph alone: the ready services by name, then the order of the rest. */
  ghost function Order(pending: Graph): Ordering
    decreases |pending|
  {
    if pending == map[] then Ordered([])
    else if Ready(pending) == {} then Cyclic
    else
      Shrinks(pending, Ready(pending));
      match Order(Without(pending, Ready(pending)))
      case Cyclic => Cyclic
      case Ordered(later) =>
        var layer := Sorted(Ready(pending));
        assert forall i | 0 <= i < |layer| :: layer[i] in layer;
        Ordered(Pick(pending, layer) + later)
  }

  function ToSet(s: seq<Name>): set<Name> {
    set n | n in s
  }

  lemma EmitStep(pending: Graph, names: seq<Name>, i: nat)
    requires Ascending(names) && (forall k | 0 <= k < |names| :: names[k] in pending) && i < |names|
    ensures Pick(pending, names[..i + 1]) == Pick(pending, names[..i]) + [pending[names[i]]]
    ensures names[i] in Without(pending, ToSet(names[..i]))
    ensures Without(Without(pending, ToSet(names[..i])), {names[i]}) == Without(pending, ToSet(names[..i + 1]))
  {
    assert names[..i + 1] == names[..i] + [names[i]];
    assert forall j | 0 <= j < i :: names[..i][j] != names[i];
    assert ToSet(names[..i + 1]) == ToSet(names[..i]) + {names[i]};
  }

  /** One round of the outer loop: the ready services leave in name order. */
  method Emit(pending: Graph, names: seq<Name>) returns (emitted: seq<Service>, rest: Graph)
    requires Ascending(names) && forall i | 0 <= i < |names| :: names[i] in pending
    ensures emitted == Pick(pending, names)
    ensures rest == Without(pending, ToSet(names))
  {
    emitted, rest := [], pending;
    assert rest == Without(pending, ToSet(names[..0]));
    for i := 0 to |names|
      invariant emitted == Pick(pending, names[..i])
      invariant rest == Without(pending, ToSet(names[..i]))
    {
      EmitStep(pending, names, i);
      emitted := emitted + [rest[names[i]]];
      rest := Without(rest, {names[i]});
    }
    assert names[..|names|] == names;
  }

  method OrderedServices(services: seq<Service>) returns (result: Ordering)
    ensures result == Order(ByName(services))
  {
    ByNameKeyed(services);
    var pending := ByName(services);
    var ordered: seq<Service> := [];
    while pending != map[]
      invariant Keyed(pending)
      invariant Order(ByName(services)) == Prepend(ordered, Order(pending))
      decreases |pending|
    {
      var ready := Ready(pending);
      if ready == {} {
        return Cyclic;
      }
      var names := Sort(ready);
      SortedListingUnique(names, Sorted(ready), ready);
      assert forall i | 0 <= i < |names| :: names[i] in names;
      assert ToSet(names) == ready;
      Shrinks(pending, ready);
      var emitted, rest := Emit(pending, names);
      PrependTwice(ordered, emitted, Order(rest));
      ordered, pending := ordered + emitted, rest;
    }
    assert ordered + [] == ordered;
    return Ordered(ordered);
  }

  function Prepend(first: seq<Service>, o: Ordering): Ordering {
    match o
    case Cyclic => Cyclic
    case Ordered(s) => Ordered(first + s)
  }

  lemma PrependTwice(a: seq<Service>, b: seq<Service>, o: Ordering)
    ensures Prepend(a, Prepend(b, o)) == Prepend(a + b, o)
  {
    if o.Ordered? {
      assert a + (b + o.services) == (a + b) + o.services;
    }
  }

  // ---------- what the order promises ----------

  ghost predicate DependenciesFirst(g: Graph, s: seq<Service>) {
    forall i, d | 0 <= i < |s| && d in s[i].dependencies && d in g :: exists j :: Before(s, j, i, d)
  }

  predicate Before(s: seq<Service>, j: int, i: int, d: Name) {
    0 <= j < i < |s| && s[j].name == d
  }

  predicate DistinctNames(services: seq<Service>) {
    forall i, j | 0 <= i < j < |services| :: services[i].name != services[j].name
  }

  predicate Own(g: Graph, s: seq<Service>) {
    forall i | 0 <= i < |s| :: s[i].name in g && g[s[i].name] == s[i]
  }

  /** Every service of `g` once, each under its own name. */
  ghost predicate Lists(g: Graph, s: seq<Service>) {
    DistinctNames(s) && Own(g, s) && forall n | n in g :: exists i :: IsAt(s, i, n)
  }

  predicate IsAt(s: seq<Service>, i: int, n: Name) {
    0 <= i < |s| && s[i].name == n
  }

  lemma WithoutReadyKeyed(g: Graph)
    requires Keyed(g)
    ensures Keyed(Without(g, Ready(g)))
  {
  }

  lemma LayerDistinct(g: Graph, layer: seq<Name>, later: seq<Service>)
    requires Keyed(g) && Ascending(layer)
    requires forall i | 0 <= i < |layer| :: layer[i] in Ready(g)
    requires DistinctNames(later) && Own(Without(g, Ready(g)), later)
    ensures DistinctNames(Pick(g, layer) + later)
  {
    var first := Pick(g, layer);
    var s := first + later;
    assert forall k | |first| <= k < |s| :: s[k] == later[k - |first|];
    assert forall k | 0 <= k < |first| :: s[k].name == layer[k];
    assert forall k | |first| <= k < |s| :: s[k].name !in Ready(g);
  }

  lemma LayerAndRest(g: Graph, layer: seq<Name>, later: seq<Service>)
    requires Keyed(g) && SortedListing(layer, Ready(g))
    requires forall i | 0 <= i < |layer| :: layer[i] in Ready(g)
    requires Lists(Without(g, Ready(g)), later)
    ensures Lists(g, Pick(g, layer) + later)
  {
    var first := Pick(g, layer);
    var s := first + later;
    LayerDistinct(g, layer, later);
    assert forall k | |first| <= k < |s| :: s[k] == later[k - |first|];
    assert Own(g, s);
    forall n | n in g ensures exists i :: IsAt(s, i, n) {
      if n in Ready(g) {
        assert n in layer;
        var i :| 0 <= i < |layer| && layer[i] == n;
        assert IsAt(s, i, n);
      } else {
        assert n in Without(g, Ready(g));
        var i :| IsAt(later, i, n);
        assert IsAt(s, i + |first|, n);
      }
    }
  }

  lemma LayerBeforeRest(g: Graph, layer: seq<Name>, later: seq<Service>)
    requires Keyed(g) && SortedListing(layer, Ready(g))
    requires forall i | 0 <= i < |layer| :: layer[i] in Ready(g)
    requires DependenciesFirst(Without(g, Ready(g)), later)
    ensures DependenciesFirst(g, Pick(g, layer) + later)
  {
    var first := Pick(g, layer);
    var s := first + later;
    forall i, d | 0 <= i < |s| && d in s[i].dependencies && d in g ensures exists j :: Before(s, j, i, d) {
      assert i < |first| ==> IsReady(g, layer[i]);
      assert s[i] == later[i - |first|];
      if d in Ready(g) {
        assert d in layer;
        var j :| 0 <= j < |layer| && layer[j] == d;
        assert first[j] == g[d];
        assert Before(s, j, i, d);
      } else {
        assert d in Without(g, Ready(g));
        var j :| Before(later, j, i - |first|, d);
        assert Before(s, j + |first|, i, d);
      }
    }
  }

  /** A produced order lists every service exactly once, and every known dependency before its dependents. */
  lemma {:induction false} OrderIsTopological(g: Graph)
    requires Keyed(g) && Order(g).Ordered?
    ensures Lists(g, Order(g).services)
    ensures DependenciesFirst(g, Order(g).services)
    decreases |g|
  {
    if g != map[] {
      Shrinks(g, Ready(g));
      WithoutReadyKeyed(g);
      OrderIsTopological(Without(g, Ready(g)));
      var layer := Sorted(Ready(g));
      assert forall i | 0 <= i < |layer| :: layer[i] in layer;
      LayerAndRest(g, layer, Order(Without(g, Ready(g))).services);
      LayerBeforeRest(g, layer, Order(Without(g, Ready(g))).services);
    }
  }

  // ---------- cycles ----------

  /** Each name on the walk depends on the next one. */
  predicate IsWalk(g: Graph, w: seq<Name>) {
    && (forall i | 0 <= i < |w| :: w[i] in g)
    && (forall i | 0 <= i < |w| - 1 :: w[i + 1] in g[w[i]].dependencies)
  }

  predicate IsCycle(g: Graph, w: seq<Name>) {
    |w| >= 2 && IsWalk(g, w) && w[0] == w[|w| - 1]
  }

  ghost predicate HasCycle(g: Graph) {
    exists w :: IsCycle(g, w)
  }

  lemma {:induction false} CycleSurvives(g: Graph, w: seq<Name>, k: nat)
    requires IsCycle(g, w) && k < |w| - 1
    ensures !IsReady(g, w[k])
  {
    var d := w[k + 1];
    assert d in g[w[k]].dependencies && d in g;
  }

  lemma {:induction false} CycleIsCyclic(g: Graph, w: seq<Name>)
    requires IsCycle(g, w)
    ensures Order(g).Cyclic?
    decreases |g|
  {
    assert w[0] in g;
    if Ready(g) != {} {
      Shrinks(g, Ready(g));
      forall k | 0 <= k < |w| ensures w[k] !in Ready(g) {
        CycleSurvives(g, w, if k == |w| - 1 then 0 else k);
      }
      CycleIsCyclic(Without(g, Ready(g)), w);
    }
  }

  /** Where nothing is ready, a walk can be extended for ever. */
  lemma {:induction false} StuckWalk(g: Graph, n: nat) returns (w: seq<Name>)
    requires g != map[] && Ready(g) == {}
    ensures |w| == n + 1 && IsWalk(g, w)
  {
    if n == 0 {
      w := [AnyOf(g.Keys)];
    } else {
      var v := StuckWalk(g, n - 1);
      var last := v[n - 1];
      assert last !in Ready(g);
      var d :| d in g[last].dependencies && d in g;
      w := v + [d];
    }
  }

  /** Pigeonhole: a sequence longer than the set it draws from repeats itself. */
  lemma {:induction false} Repeats(w: seq<Name>, names: set<Name>) returns (i: nat, j: nat)
    requires |w| > |names| && forall k | 0 <= k < |w| :: w[k] in names
    ensures i < j < |w| && w[i] == w[j]
    decreases |w|
  {
    var last := |w| - 1;
    if k :| 0 <= k < last && w[k] == w[last] {
      i, j := k, last;
    } else {
      assert w[last] in names;
      i, j := Repeats(w[..last], names - {w[last]});
    }
  }

  lemma SubwalkIsCycle(g: Graph, w: seq<Name>, i: nat, j: nat)
    requires IsWalk(g, w) && i < j < |w| && w[i] == w[j]
    ensures IsCycle(g, w[i..j + 1])
  {
    var c := w[i..j + 1];
    assert forall k | 0 <= k < |c| :: c[k] == w[i + k];
  }

  lemma {:induction false} CyclicHasCycle(g: Graph)
    requires Order(g).Cyclic?
    ensures HasCycle(g)
    decreases |g|
  {
    if Ready(g) == {} {
      var w := StuckWalk(g, |g.Keys|);
      var i, j := Repeats(w, g.Keys);
      SubwalkIsCycle(g, w, i, j);
    } else {
      var rest := Without(g, Ready(g));
      Shrinks(g, Ready(g));
      CyclicHasCycle(rest);
      var w :| IsCycle(rest, w);
      assert IsCycle(g, w);
    }
  }

  /** The ordering is refused exactly when the dependency graph has a cycle. */
  lemma CyclicExactlyWithCycle(g: Graph)
    ensures Order(g).Cyclic? <==> HasCycle(g)
  {
    if Order(g).Cyclic? {
      CyclicHasCycle(g);
    }
    if w :| IsCycle(g, w) {
      CycleIsCyclic(g, w);
    }
  }

  // ---------- input order ----------

  lemma {:induction false} ByNameLookup(services: seq<Service>, s: Service)
    requires DistinctNames(services)
    ensures s in services <==> s.name in ByName(services) && ByName(services)[s.name] == s
  {
    if services != [] {
      var k := |services| - 1;
      ByNameLookup(services[..k], s);
      ByNameKeyed(services[..k]);
      assert services == services[..k] + [services[k]];
    }
  }

  /** Permuting services with distinct names does not change the start order. */
  lemma OrderIgnoresInputOrder(a: seq<Service>, b: seq<Service>)
    requires DistinctNames(a) && DistinctNames(b)
    requires forall s :: s in a <==> s in b
    ensures Order(ByName(a)) == Order(ByName(b))
  {
    ByNameKeyed(a);
    ByNameKeyed(b);
    forall n ensures n in ByName(a) <==> n in ByName(b) {
      if n in ByName(a) {
        ByNameLookup(a, ByName(a)[n]);
        ByNameLookup(b, ByName(a)[n]);
      }
      if n in ByName(b) {
        ByNameLookup(a, ByName(b)[n]);
        ByNameLookup(b, ByName(b)[n]);
      }
    }
    forall n | n in ByName(a) ensures ByName(a)[n] == ByName(b)[n] {
      ByNameLookup(a, ByName(a)[n]);
      ByNameLookup(b, ByName(a)[n]);
    }
    assert ByName(a) == ByName(b);
  }

  // ---------- closed sets of running services ----------

  predicate Closed(g: Graph, names: set<Name>) {
    forall n, d | n in names && n in g && d in g[n].dependencies && d in g :: d in names
  }

  function NamesOf(s: seq<Service>): set<Name> {
    set i | 0 <= i < |s| :: s[i].name
  }

  lemma KeysAreNames(services: seq<Service>)
    ensures ByName(services).Keys == NamesOf(services)
  {
    ByNameKeyed(services);
    forall n ensures n in ByName(services) <==> n in NamesOf(services) {
    }
  }

  /** Stopping halfway through the reverse order, or starting halfway, never strands a dependent. */
  lemma PrefixIsClosed(g: Graph, k: nat)
    requires Keyed(g) && Order(g).Ordered? && k <= |Order(g).services|
    ensures Closed(g, NamesOf(Order(g).services[..k]))
  {
    OrderIsTopological(g);
    var s := Order(g).services;
    forall n, d | n in NamesOf(s[..k]) && n in g && d in g[n].dependencies && d in g
      ensures d in NamesOf(s[..k])
    {
      var i :| 0 <= i < k && s[..k][i].name == n;
      assert s[i].name == n;
      var j :| Before(s, j, i, d);
      assert s[..k][j].name == d;
    }
  }

  // ---------- the manifest's check ----------

  datatype Verdict = Accepted | UnknownDependency | SelfDependency | DuplicateDependency | DependencyCycle

  predicate Unique(s: seq<Name>) {
    |s| == |ToSet(s)|
  }

  lemma {:induction false} UniqueMeansDistinct(s: seq<Name>)
    ensures |ToSet(s)| <= |s|
    ensures Unique(s) <==> forall i, j | 0 <= i < j < |s| :: s[i] != s[j]
  {
    if s != [] {
      var k := |s| - 1;
      UniqueMeansDistinct(s[..k]);
      assert s == s[..k] + [s[k]];
      assert ToSet(s) == ToSet(s[..k]) + {s[k]};
      if s[k] in s[..k] {
        assert ToSet(s) == ToSet(s[..k]);
        var i :| 0 <= i < k && s[..k][i] == s[k];
        assert s[i] == s[k];
      } else {
        forall i | 0 <= i < k ensures s[i] != s[k] { assert s[i] in s[..k]; }
      }
    }
  }

  predicate Sound(s: Service, names: set<Name>) {
    ToSet(s.dependencies) <= names && s.name !in s.dependencies && Unique(s.dependencies)
  }

  /** What is left of each waiting service's dependencies: those still waiting. */
  predicate Remaining(g: Graph, pending: map<Name, set<Name>>) {
    && pending.Keys == g.Keys
    && forall n | n in g :: pending[n] == set d | d in g[n].dependencies && d in g
  }

  lemma RemainingAfter(g: Graph, pending: map<Name, set<Name>>, ready: set<Name>)
    requires Remaining(g, pending) && ready == Ready(g)
    ensures Remaining(Without(g, ready), map n | n in pending && n !in ready :: pending[n] - ready)
  {
  }

  lemma ReadyIsEmpty(g: Graph, pending: map<Name, set<Name>>)
    requires Remaining(g, pending)
    ensures Ready(g) == set n | n in pending && pending[n] == {}
  {
    forall n | n in pending ensures pending[n] == {} <==> n in Ready(g) {
      if pending[n] == {} {
        forall d | d in g[n].dependencies ensures d !in g {
          assert d !in pending[n];
        }
      } else {
        var d := AnyOf(pending[n]);
        assert !IsReady(g, n);
      }
    }
  }

  /** The loop that drops ready names and then subtracts them from every remaining set. */
  method PeelDependencies(ghost g: Graph, start: map<Name, set<Name>>) returns (cyclic: bool)
    requires Remaining(g, start)
    ensures cyclic <==> HasCycle(g)
  {
    var pending := start;
    ghost var rest := g;
    while pending != map[]
      invariant Remaining(rest, pending)
      invariant Order(rest).Cyclic? <==> Order(g).Cyclic?
      decreases |rest|
    {
      var ready := set n | n in pending && pending[n] == {};
      ReadyIsEmpty(rest, pending);
      if ready == {} {
        assert rest != map[] by { assert pending.Keys == rest.Keys; }
        CyclicExactlyWithCycle(g);
        return true;
      }
      Shrinks(rest, ready);
      RemainingAfter(rest, pending, ready);
      pending := map n | n in pending && n !in ready :: pending[n] - ready;
      rest := Without(rest, ready);
    }
    assert rest == map[] by { assert pending.Keys == rest.Keys; }
    CyclicExactlyWithCycle(g);
    return false;
  }

  /** The complaint about one service, in the order the checks are made. */
  function Fault(s: Service, names: set<Name>): (v: Verdict)
    ensures v.Accepted? <==> Sound(s, names)
  {
    if !(ToSet(s.dependencies) <= names) then UnknownDependency
    else if s.name in s.dependencies then SelfDependency
    else if !Unique(s.dependencies) then DuplicateDependency
    else Accepted
  }

  predicate AllKnown(dependencies: seq<Name>, names: set<Name>) {
    forall d | d in dependencies :: d in names
  }

  lemma KnownByMember(dependencies: seq<Name>, names: set<Name>)
    ensures AllKnown(dependencies, names) <==> ToSet(dependencies) <= names
  {
    if AllKnown(dependencies, names) {
      forall d | d in ToSet(dependencies) ensures d in names {
        assert d in dependencies;
      }
    }
    if ToSet(dependencies) <= names {
      forall d | d in dependencies ensures d in names {
        assert d in ToSet(dependencies);
      }
    }
  }

  /** Which complaint it is: an unknown dependency comes before the service itself, and that before a repetition. */
  lemma FaultIs(s: Service, names: set<Name>)
    ensures var v, deps := Fault(s, names), s.dependencies;
            && (v.UnknownDependency? <==> !AllKnown(deps, names))
            && (v.SelfDependency? <==> AllKnown(deps, names) && s.name in deps)
            && (v.DuplicateDependency? <==>
                  AllKnown(deps, names) && s.name !in deps && exists i, k | 0 <= i < k < |deps| :: deps[i] == deps[k])
  {
    KnownByMember(s.dependencies, names);
    UniqueMeansDistinct(s.dependencies);
  }

  predicate FirstUnsound(services: seq<Service>, i: int) {
    && 0 <= i < |services| && !Sound(services[i], NamesOf(services))
    && forall k | 0 <= k < i :: Sound(services[k], NamesOf(services))
  }

  method ValidateDependencies(services: seq<Service>) returns (verdict: Verdict)
    ensures forall i | FirstUnsound(services, i) :: verdict == Fault(services[i], NamesOf(services))
    ensures (forall i :: !FirstUnsound(services, i)) ==>
              verdict == if HasCycle(ByName(services)) then DependencyCycle else Accepted
    ensures verdict.Accepted? <==>
      && (forall s | s in services :: Sound(s, NamesOf(services)))
      && !HasCycle(ByName(services))
  {
    var names := NamesOf(services);
    for i := 0 to |services|
      invariant forall k | 0 <= k < i :: Sound(services[k], names)
    {
      var s := services[i];
      assert s in services;
      if !Sound(s, names) {
        assert FirstUnsound(services, i);
        if !(ToSet(s.dependencies) <= names) { return UnknownDependency; }
        if s.name in s.dependencies { return SelfDependency; }
        return DuplicateDependency;
      }
    }
    ByNameKeyed(services);
    var g := ByName(services);
    var pending := map n | n in g :: ToSet(g[n].dependencies);
    forall n | n in g ensures pending[n] == set d | d in g[n].dependencies && d in g {
      LastIsListed(services, n);
      forall d | d in g[n].dependencies ensures d in g {
        assert d in ToSet(g[n].dependencies);
      }
    }
    var cyclic := PeelDependencies(g, pending);
    return if cyclic then DependencyCycle else Accepted;
  }

  lemma {:induction false} LastIsListed(services: seq<Service>, n: Name)
    requires n in ByName(services)
    ensures ByName(services)[n] in services
  {
    var k := |services| - 1;
    if services[k].name != n {
      LastIsListed(services[..k], n);
    }
  }

  /** An accepted manifest always has a start order, and in it every declared dependency comes first. */
  lemma AcceptedStartsInOrder(services: seq<Service>)
    requires forall s | s in services :: Sound(s, NamesOf(services))
    requires !HasCycle(ByName(services))
    ensures Order(ByName(services)).Ordered?
    ensures forall i, d |
              && 0 <= i < |Order(ByName(services)).services|
              && d in Order(ByName(services)).services[i].dependencies ::
              exists j :: Before(Order(ByName(services)).services, j, i, d)
  {
    var g := ByName(services);
    ByNameKeyed(services);
    CyclicExactlyWithCycle(g);
    OrderIsTopological(g);
    var s := Order(g).services;
    forall i, d | 0 <= i < |s| && d in s[i].dependencies ensures exists j :: Before(s, j, i, d) {
      LastIsListed(services, s[i].name);
      assert d in ToSet(s[i].dependencies);
      assert d in g;
    }
  }
}
