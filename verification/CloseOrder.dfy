/**
 * providerCloseOrder and providerSnapshots of container/provide.go: resolved
 * providers are closed before the providers they depend on.
 */
module CloseOrder {
  import opened Basics
  import opened ProviderGraph

  /** A provider resolves only after its wired dependencies have. */
  ghost predicate ClosedUnderDeps(graph: Defs, resolved: set<RefKey>) {
    forall k, d | k in resolved && k in graph && d in graph[k].deps && d in graph :: d in resolved
  }

  /**
   * What is known of resolved providers: wired, without an error and with
   * their dependencies resolved. topo orders the providers without an error.
   */
  ghost predicate Resolvable(graph: Defs, errs: set<RefKey>, topo: seq<RefKey>, resolved: set<RefKey>) {
    && TopologicalOrder(graph, errs, topo)
    && resolved <= graph.Keys && resolved !! errs
    && ClosedUnderDeps(graph, resolved)
  }

  /** From a resolved provider a walk leads to resolved providers of lower rank only. */
  lemma {:induction false} ResolvedWalk(
    graph: Defs, errs: set<RefKey>, topo: seq<RefKey>, resolved: set<RefKey>, path: seq<RefKey>, i: nat, j: nat)
    requires Resolvable(graph, errs, topo, resolved) && Walk(graph, path) && i <= j < |path| && path[i] in resolved
    ensures path[j] in resolved
    ensures IndexOf(topo, path[j]) <= IndexOf(topo, path[i])
    decreases j - i
  {
    if i < j {
      assert path[i + 1] in graph[path[i]].deps;
      DependencyComesFirst(graph, errs, topo, path[i], path[i + 1]);
      ResolvedWalk(graph, errs, topo, resolved, path, i + 1, j);
    }
  }

  /** Resolved providers in the order come after their dependencies. */
  ghost predicate DependenciesFirst(graph: Defs, resolved: set<RefKey>, order: seq<RefKey>) {
    forall j :: 0 <= j < |order| ==> DependenciesBefore(graph, resolved, order, j)
  }

  ghost predicate DependenciesBefore(graph: Defs, resolved: set<RefKey>, order: seq<RefKey>, j: nat)
    requires j < |order|
  {
    order[j] in resolved && order[j] in graph ==>
      forall d :: d in graph[order[j]].deps && d in graph ==> d in order[..j]
  }

  lemma AppendKeepsOrder(graph: Defs, resolved: set<RefKey>, order: seq<RefKey>, k: RefKey)
    requires DependenciesFirst(graph, resolved, order)
    requires k in resolved && k in graph ==> forall d :: d in graph[k].deps && d in graph ==> d in order
    ensures DependenciesFirst(graph, resolved, order + [k])
  {
    var longer := order + [k];
    assert longer[..|order|] == order;
    forall j | 0 <= j < |longer| ensures DependenciesBefore(graph, resolved, longer, j) {
      if j < |order| {
        assert DependenciesBefore(graph, resolved, order, j);
        assert longer[j] == order[j] && longer[..j] == order[..j];
      }
    }
  }

  // ------------------------------------------- the order as a function of the wiring

  datatype Progress = Progress(visited: set<RefKey>, order: seq<RefKey>)

  /** Depth first: k after all it leads to, each key once. */
  function Visited(graph: Defs, p: Progress, k: RefKey): (p': Progress)
    ensures p.visited <= p'.visited
    decreases graph.Keys - p.visited, 0, 0
  {
    if k in p.visited then p
    else
      var entered := p.(visited := p.visited + {k});
      var below := if k in graph then
                     assert graph.Keys - entered.visited < graph.Keys - p.visited;
                     AllVisited(graph, entered, graph[k].deps)
                   else entered;
      below.(order := below.order + [k])
  }

  function AllVisited(graph: Defs, p: Progress, keys: seq<RefKey>): (p': Progress)
    ensures p.visited <= p'.visited
    decreases graph.Keys - p.visited, 1, |keys|
  {
    if keys == [] then p
    else
      var first := Visited(graph, p, keys[0]);
      assert graph.Keys - first.visited <= graph.Keys - p.visited;
      AllVisited(graph, first, keys[1..])
  }

  /** The order depends on the wiring alone, not on what is resolved. */
  function CloseOrderOf(graph: Defs, provOrder: seq<RefKey>): seq<RefKey> {
    AllVisited(graph, Progress({}, []), provOrder).order
  }

  /** The closure variables of providerCloseOrder, and what is known of resolved providers. */
  class Orderer {
    const graph: Defs
    ghost const errs: set<RefKey>
    ghost const topo: seq<RefKey>
    ghost const resolved: set<RefKey>
    var visited: set<RefKey>
    var order: seq<RefKey>

    constructor (graph: Defs, ghost errs: set<RefKey>, ghost topo: seq<RefKey>, ghost resolved: set<RefKey>)
      ensures this.graph == graph && this.errs == errs && this.topo == topo && this.resolved == resolved
      ensures visited == {} && order == []
    {
      this.graph := graph;
      this.errs, this.topo, this.resolved := errs, topo, resolved;
      visited, order := {}, [];
    }

    /** stack holds the providers whose visit has begun but not ended. */
    ghost predicate Valid(stack: seq<RefKey>)
      reads this
    {
      && visited == Elements(order) + Elements(stack)
      && Elements(order) !! Elements(stack)
      && Distinct(order) && Distinct(stack) && Walk(graph, stack)
    }

    method Visit(k: RefKey, ghost stack: seq<RefKey>)
      requires Resolvable(graph, errs, topo, resolved)
      requires Valid(stack) && DependenciesFirst(graph, resolved, order)
      requires stack != [] ==> k in graph[stack[|stack| - 1]].deps
      modifies this`visited, this`order
      ensures Valid(stack) && DependenciesFirst(graph, resolved, order)
      ensures k in visited && old(visited) <= visited && old(order) <= order
      ensures Progress(visited, order) == Visited(graph, old(Progress(visited, order)), k)
      decreases graph.Keys - visited
    {
      if k in visited {
        return;
      }
      visited := visited + {k};
      ghost var stack' := stack;
      if k in graph {
        stack' := stack + [k];
        assert Elements(stack') == Elements(stack) + {k};
        var deps := graph[k].deps;
        for i := 0 to |deps|
          invariant Valid(stack') && DependenciesFirst(graph, resolved, order)
          invariant old(visited) + {k} <= visited && old(order) <= order
          invariant forall j :: 0 <= j < i ==> deps[j] in visited
          invariant AllVisited(graph, Progress(visited, order), deps[i..])
                    == AllVisited(graph, old(Progress(visited + {k}, order)), deps)
        {
          assert deps[i..][0] == deps[i] && deps[i..][1..] == deps[i + 1..];
          Visit(deps[i], stack');
        }
        assert deps[|deps|..] == [];
        if k in resolved {
          DependenciesAreListed(k, stack');
        }
      }
      AppendKeepsOrder(graph, resolved, order, k);
      assert Elements(order + [k]) == Elements(order) + {k};
      order := order + [k];
    }

    /** Once its dependencies are visited they are listed before a resolved provider. */
    lemma DependenciesAreListed(k: RefKey, stack: seq<RefKey>)
      requires Resolvable(graph, errs, topo, resolved) && Valid(stack) && stack != [] && stack[|stack| - 1] == k
      requires k in resolved && k in graph && forall d :: d in graph[k].deps ==> d in visited
      ensures forall d :: d in graph[k].deps && d in graph ==> d in order
    {
      forall d | d in graph[k].deps && d in graph ensures d in order {
        NotAnAncestor(stack, d);
      }
    }

    /** A resolved provider never depends on one whose visit is under way. */
    lemma NotAnAncestor(stack: seq<RefKey>, d: RefKey)
      requires Resolvable(graph, errs, topo, resolved) && Walk(graph, stack) && stack != []
      requires stack[|stack| - 1] in resolved && d in graph[stack[|stack| - 1]].deps && d in graph
      ensures d !in stack
    {
      var k := stack[|stack| - 1];
      DependencyComesFirst(graph, errs, topo, k, d);
      if i :| 0 <= i < |stack| && stack[i] == d {
        ResolvedWalk(graph, errs, topo, resolved, stack, i, |stack| - 1);
      }
    }
  }

  /** Dependencies of resolved providers come first, whatever cycles there are elsewhere. */
  method ProviderCloseOrder(
    graph: Defs, provOrder: seq<RefKey>, ghost errs: set<RefKey>, ghost topo: seq<RefKey>, ghost resolved: set<RefKey>)
    returns (order: seq<RefKey>)
    requires Resolvable(graph, errs, topo, resolved)
    ensures Distinct(order) && forall k :: k in provOrder ==> k in order
    ensures DependenciesFirst(graph, resolved, order)
    ensures order == CloseOrderOf(graph, provOrder)
  {
    var o := new Orderer(graph, errs, topo, resolved);
    for i := 0 to |provOrder|
      invariant fresh(o) && o.Valid([]) && DependenciesFirst(o.graph, o.resolved, o.order)
      invariant forall j :: 0 <= j < i ==> provOrder[j] in o.visited
      invariant AllVisited(graph, Progress(o.visited, o.order), provOrder[i..]).order == CloseOrderOf(graph, provOrder)
    {
      assert provOrder[i..][0] == provOrder[i] && provOrder[i..][1..] == provOrder[i + 1..];
      o.Visit(provOrder[i], []);
    }
    assert provOrder[|provOrder|..] == [];
    order := o.order;
  }

  // -------------------------------------------------------- providerSnapshots

  /** Walking the order back to front, keeping what is resolved. */
  function Backwards(order: seq<RefKey>, resolved: set<RefKey>): seq<RefKey> {
    if order == [] then []
    else
      var last := order[|order| - 1];
      (if last in resolved then [last] else []) + Backwards(order[..|order| - 1], resolved)
  }

  predicate Precedes(s: seq<RefKey>, a: RefKey, b: RefKey) {
    exists i, j :: 0 <= i < j < |s| && s[i] == a && s[j] == b
  }

  lemma {:induction false} BackwardsMembers(order: seq<RefKey>, resolved: set<RefKey>)
    ensures forall k :: k in Backwards(order, resolved) <==> k in order && k in resolved
    ensures Distinct(order) ==> Distinct(Backwards(order, resolved))
  {
    if order != [] {
      var front, last := order[..|order| - 1], order[|order| - 1];
      BackwardsMembers(front, resolved);
      assert order == front + [last];
      assert Distinct(order) ==> last !in front;
    }
  }

  lemma {:induction false} BackwardsReverses(order: seq<RefKey>, resolved: set<RefKey>, j: nat, d: RefKey)
    requires j < |order| && order[j] in resolved && d in order[..j] && d in resolved
    ensures Precedes(Backwards(order, resolved), order[j], d)
  {
    var front, last := order[..|order| - 1], order[|order| - 1];
    BackwardsMembers(front, resolved);
    var rest, all := Backwards(front, resolved), Backwards(order, resolved);
    if j == |order| - 1 {
      assert all == [last] + rest && d in rest;
      var b :| 0 <= b < |rest| && rest[b] == d;
      assert all[0] == order[j] && all[b + 1] == d;
    } else {
      assert front[..j] == order[..j];
      BackwardsReverses(front, resolved, j, d);
      var a, b :| 0 <= a < b < |rest| && rest[a] == order[j] && rest[b] == d;
      var shift := |all| - |rest|;
      assert all[a + shift] == order[j] && all[b + shift] == d;
    }
  }

  /** What has been walked over and what is still to come. */
  ghost predicate Walked(order: seq<RefKey>, resolved: set<RefKey>, i: nat, out: seq<RefKey>) {
    i <= |order| && Backwards(order, resolved) == out + Backwards(order[..i], resolved)
  }

  lemma WalkStep(order: seq<RefKey>, resolved: set<RefKey>, i: nat, out: seq<RefKey>)
    requires i < |order| && Walked(order, resolved, i + 1, out)
    ensures Walked(order, resolved, i, if order[i] in resolved then out + [order[i]] else out)
  {
    var front := order[..i + 1];
    assert front[..i] == order[..i] && front[i] == order[i];
    var own := if order[i] in resolved then [order[i]] else [];
    assert Backwards(front, resolved) == own + Backwards(order[..i], resolved);
    assert out + (own + Backwards(order[..i], resolved)) == (out + own) + Backwards(order[..i], resolved);
    assert out + [] == out;
  }

  method WalkBack(order: seq<RefKey>, resolved: set<RefKey>) returns (out: seq<RefKey>)
    ensures out == Backwards(order, resolved)
  {
    out := [];
    var i := |order|;
    assert order[..i] == order;
    while i > 0
      invariant 0 <= i <= |order| && Walked(order, resolved, i, out)
    {
      i := i - 1;
      WalkStep(order, resolved, i, out);
      if order[i] in resolved {
        out := out + [order[i]];
      }
    }
    assert out + [] == out;
  }

  /**
   * The keys Close walks: every resolved provider exactly once, each before
   * every provider it depends on.
   */
  method ProviderSnapshots(
    graph: Defs, provOrder: seq<RefKey>, resolved: set<RefKey>, ghost errs: set<RefKey>, ghost topo: seq<RefKey>)
    returns (out: seq<RefKey>)
    requires Resolvable(graph, errs, topo, resolved)
    requires forall k :: k in graph ==> k in provOrder
    ensures Distinct(out) && forall k :: k in out <==> k in resolved
    ensures forall u, d | u in resolved && d in graph[u].deps && d in graph :: Precedes(out, u, d)
    ensures out == Backwards(CloseOrderOf(graph, provOrder), resolved)
  {
    var order := ProviderCloseOrder(graph, provOrder, errs, topo, resolved);
    out := WalkBack(order, resolved);
    BackwardsMembers(order, resolved);
    forall u, d | u in resolved && d in graph[u].deps && d in graph ensures Precedes(out, u, d) {
      assert u in provOrder;
      var j :| 0 <= j < |order| && order[j] == u;
      assert DependenciesBefore(graph, resolved, order, j);
      BackwardsReverses(order, resolved, j, d);
    }
  }

  // -------------------------------------------------- names taken a moment later

  /** Some provider resolved in between is listed before one that was resolved already. */
  predicate CutIn(order: seq<RefKey>, resolved: set<RefKey>, later: set<RefKey>) {
    exists i, j :: 0 <= i < j < |order| && order[i] in resolved && order[j] in later - resolved
  }

  lemma BackwardsAppend(front: seq<RefKey>, last: RefKey, resolved: set<RefKey>)
    ensures Backwards(front + [last], resolved)
            == if last in resolved then [last] + Backwards(front, resolved) else Backwards(front, resolved)
  {
    assert (front + [last])[..|front|] == front;
  }

  /**
   * The names are taken in a critical section of their own, when more providers
   * may be resolved. There is always a name for each instance, and all names fit
   * the instances exactly when no provider has cut in.
   */
  lemma {:induction false} LabelsLineUp(order: seq<RefKey>, resolved: set<RefKey>, later: set<RefKey>)
    requires resolved <= later && Distinct(order)
    ensures |Backwards(order, resolved)| <= |Backwards(order, later)|
    ensures Backwards(order, resolved) <= Backwards(order, later) <==> !CutIn(order, resolved, later)
    decreases |order|
  {
    if order != [] {
      var front, last := order[..|order| - 1], order[|order| - 1];
      assert order == front + [last];
      LabelsLineUp(front, resolved, later);
      CutInAtLast(front, last, resolved, later);
      BackwardsAppend(front, last, resolved);
      BackwardsAppend(front, last, later);
      LabelsOfLonger(front, last, resolved, later);
    }
  }

  lemma LabelsOfLonger(front: seq<RefKey>, last: RefKey, resolved: set<RefKey>, later: set<RefKey>)
    requires resolved <= later && Distinct(front + [last])
    ensures var kept, labels := Backwards(front, resolved), Backwards(front, later);
            && ([last] + kept <= [last] + labels <==> kept <= labels)
            && (kept <= [last] + labels <==> kept == [])
  {
    var kept, labels := Backwards(front, resolved), Backwards(front, later);
    BackwardsMembers(front, resolved);
    assert ([last] + kept)[1..] == kept && ([last] + labels)[1..] == labels;
    if kept != [] {
      assert kept[0] in kept;
      var i :| 0 <= i < |front| && front[i] == kept[0];
      assert (front + [last])[i] != (front + [last])[|front|];
    }
  }

  lemma CutInAtLast(front: seq<RefKey>, last: RefKey, resolved: set<RefKey>, later: set<RefKey>)
    ensures CutIn(front + [last], resolved, later)
            <==> CutIn(front, resolved, later) || (last in later - resolved && Backwards(front, resolved) != [])
  {
    var order := front + [last];
    BackwardsMembers(front, resolved);
    if last in later - resolved && Backwards(front, resolved) != [] {
      assert Backwards(front, resolved)[0] in Backwards(front, resolved);
      var i :| 0 <= i < |front| && front[i] == Backwards(front, resolved)[0];
      assert order[i] in resolved && order[|front|] == last;
    }
    if CutIn(front, resolved, later) {
      var i, j :| 0 <= i < j < |front| && front[i] in resolved && front[j] in later - resolved;
      assert order[i] in resolved && order[j] in later - resolved;
    }
    if CutIn(order, resolved, later) {
      var i, j :| 0 <= i < j < |order| && order[i] in resolved && order[j] in later - resolved;
      assert order[i] == front[i];
      if j < |front| {
        assert front[j] in later - resolved;
      } else {
        assert front[i] in Backwards(front, resolved);
      }
    }
  }
}
