/**
 * Close of container/close.go over the providers that providerSnapshots lists:
 * whose goroutine is started first, when one instance may be listed twice.
 */
module CloseProviders {
  import opened Basics
  import opened CloseHandoff
  import ProviderGraph
  import CloseOrder

  /** Where the instance of service n is first listed. */
  function FirstPlace(services: seq<Service>, n: nat): (m: nat)
    requires n < |services|
    ensures m <= n && (m == n || SameInstance(services, m, n))
    ensures forall k :: 0 <= k < m ==> !SameInstance(services, k, n)
  {
    FirstFrom(services, n, 0)
  }

  function FirstFrom(services: seq<Service>, n: nat, from: nat): (m: nat)
    requires from <= n < |services|
    ensures from <= m <= n && (m == n || SameInstance(services, m, n))
    ensures forall k :: from <= k < m ==> !SameInstance(services, k, n)
    decreases n - from
  {
    if from == n || SameInstance(services, from, n) then from else FirstFrom(services, n, from + 1)
  }

  /** Goroutine i closes the instance of service n. */
  predicate Closes(services: seq<Service>, s: State, i: nat, n: nat)
    requires n < |services|
  {
    i < |s.goroutines| && (s.goroutines[i].service == n || SameInstance(services, s.goroutines[i].service, n))
  }

  /** The goroutine that closes an instance is started where it is first listed, and there is one. */
  lemma ClosedAtFirstPlace(services: seq<Service>, schedule: seq<Event>, n: nat) returns (i: nat)
    requires After(services, schedule).next == |services| && n < |services| && !services[n].isNil
    ensures var s := After(services, schedule);
            Closes(services, s, i, n) && s.goroutines[i].service == FirstPlace(services, n)
  {
    AfterInv(services, schedule);
    var s, m := After(services, schedule), FirstPlace(services, n);
    assert Handled(services, s, m);
    if j :| 0 <= j < |s.goroutines| && SameInstance(services, s.goroutines[j].service, m) {
      assert SameInstance(services, s.goroutines[j].service, n);
    }
    i :| 0 <= i < |s.goroutines| && s.goroutines[i].service == m;
  }

  /** Only that one: an instance is closed once. */
  lemma ClosesOnce(services: seq<Service>, schedule: seq<Event>, n: nat, i: nat, j: nat)
    requires n < |services|
    requires Closes(services, After(services, schedule), i, n) && Closes(services, After(services, schedule), j, n)
    ensures i == j
  {
    AfterInv(services, schedule);
    var s := After(services, schedule);
    assert GoroutineInv(services, s, i) && GoroutineInv(services, s, j);
  }

  /**
   * When Close has come to the end, the goroutine that closes a was started, and
   * waited for, before the one that closes b if and only if the instance of a is
   * listed, at first, before that of b.
   */
  lemma ClosedInListOrder(services: seq<Service>, schedule: seq<Event>, a: nat, b: nat, i: nat, j: nat)
    requires After(services, schedule).next == |services| && a < |services| && b < |services|
    requires !services[a].isNil && !services[b].isNil
    requires Closes(services, After(services, schedule), i, a) && Closes(services, After(services, schedule), j, b)
    ensures i < j <==> FirstPlace(services, a) < FirstPlace(services, b)
    ensures i < j ==> i < |After(services, schedule).verdicts|
  {
    AfterInv(services, schedule);
    var s := After(services, schedule);
    var i' := ClosedAtFirstPlace(services, schedule, a);
    var j' := ClosedAtFirstPlace(services, schedule, b);
    ClosesOnce(services, schedule, a, i, i');
    ClosesOnce(services, schedule, b, j, j');
    assert GoroutineInv(services, s, i) && GoroutineInv(services, s, j);
  }

  // ---------------------------------------------------------------- providers

  type Instances = ProviderGraph.RefKey -> Service

  /** What Close walks: bands before, the providers, bands after. */
  function Listed(before: seq<Service>, out: seq<ProviderGraph.RefKey>, instance: Instances, after: seq<Service>): seq<Service> {
    before + seq(|out|, i requires 0 <= i < |out| => instance(out[i])) + after
  }

  /** No two services are one instance. */
  predicate AllDifferent(services: seq<Service>) {
    forall a, b :: 0 <= a < b < |services| ==> !SameInstance(services, a, b)
  }

  /**
   * With instances that are all different, the goroutine that closes a provider
   * has been started and waited for before the one of any provider it depends on.
   * out is what providerSnapshots gives.
   */
  lemma DependentsCloseFirst(
    before: seq<Service>, out: seq<ProviderGraph.RefKey>, instance: Instances, after: seq<Service>, schedule: seq<Event>,
    u: ProviderGraph.RefKey, d: ProviderGraph.RefKey)
    returns (i: nat, j: nat)
    requires var services := Listed(before, out, instance, after);
             AllDifferent(services) && After(services, schedule).next == |services|
    requires CloseOrder.Precedes(out, u, d) && !instance(u).isNil && !instance(d).isNil
    ensures var s := After(Listed(before, out, instance, after), schedule);
            && i < j < |s.goroutines| && i < |s.verdicts|
            && s.goroutines[i].service < |Listed(before, out, instance, after)|
            && s.goroutines[j].service < |Listed(before, out, instance, after)|
            && Listed(before, out, instance, after)[s.goroutines[i].service] == instance(u)
            && Listed(before, out, instance, after)[s.goroutines[j].service] == instance(d)
  {
    var services := Listed(before, out, instance, after);
    var p, q :| 0 <= p < q < |out| && out[p] == u && out[q] == d;
    var a, b := |before| + p, |before| + q;
    assert services[a] == instance(u) && services[b] == instance(d);
    i := ClosedAtFirstPlace(services, schedule, a);
    j := ClosedAtFirstPlace(services, schedule, b);
    ClosedInListOrder(services, schedule, a, b, i, j);
  }

  /** Providers declared as d, u, x, of which u depends on d. */
  predicate OneDependency(
    graph: ProviderGraph.Defs, d: ProviderGraph.RefKey, u: ProviderGraph.RefKey, x: ProviderGraph.RefKey)
  {
    && Distinct([d, u, x]) && graph.Keys == {d, u, x}
    && graph[d].deps == [] && graph[u].deps == [d] && graph[x].deps == []
  }

  lemma OnlyVisited(graph: ProviderGraph.Defs, p: CloseOrder.Progress, d: ProviderGraph.RefKey)
    requires d in p.visited
    ensures CloseOrder.AllVisited(graph, p, [d]) == p
  {
    assert [d][1..] == [] && CloseOrder.Visited(graph, p, d) == p;
    assert CloseOrder.AllVisited(graph, p, []) == p;
  }

  lemma AllOfThree(
    graph: ProviderGraph.Defs, p: CloseOrder.Progress, a: ProviderGraph.RefKey, b: ProviderGraph.RefKey, c: ProviderGraph.RefKey)
    ensures CloseOrder.AllVisited(graph, p, [a, b, c])
            == CloseOrder.Visited(graph, CloseOrder.Visited(graph, CloseOrder.Visited(graph, p, a), b), c)
  {
    var first := CloseOrder.Visited(graph, p, a);
    var second := CloseOrder.Visited(graph, first, b);
    assert [a, b, c][1..] == [b, c] && [b, c][1..] == [c] && [c][1..] == [];
    assert CloseOrder.AllVisited(graph, first, [b, c]) == CloseOrder.AllVisited(graph, second, [c]);
  }

  /** With all of them resolved Close walks x, u, d. */
  lemma ListedBackwards(
    graph: ProviderGraph.Defs, d: ProviderGraph.RefKey, u: ProviderGraph.RefKey, x: ProviderGraph.RefKey)
    requires OneDependency(graph, d, u, x)
    ensures CloseOrder.Backwards(CloseOrder.CloseOrderOf(graph, [d, u, x]), {d, u, x}) == [x, u, d]
  {
    assert [d, u, x][0] != [d, u, x][1] && [d, u, x][1] != [d, u, x][2] && [d, u, x][0] != [d, u, x][2];
    var start := CloseOrder.Progress({}, []);
    var afterD := CloseOrder.Progress({d}, [d]);
    var afterU := CloseOrder.Progress({d} + {u}, [d, u]);
    var afterX := CloseOrder.Progress({d} + {u} + {x}, [d, u, x]);
    assert [d, u, x][1..] == [u, x] && [u, x][1..] == [x] && [x][1..] == [] && [d][1..] == [];
    assert {} + {d} == {d} && [] + [d] == [d];
    assert CloseOrder.Visited(graph, start, d) == afterD;
    OnlyVisited(graph, CloseOrder.Progress({d} + {u}, [d]), d);
    assert CloseOrder.Visited(graph, afterD, u) == afterU;
    assert CloseOrder.Visited(graph, afterU, x) == afterX;
    AllOfThree(graph, start, d, u, x);
    assert CloseOrder.CloseOrderOf(graph, [d, u, x]) == [d, u, x];
    var resolved := {d, u, x};
    assert [d, u, x][..2] == [d, u] && [d, u][..1] == [d] && [d][..0] == [];
    assert CloseOrder.Backwards([d], resolved) == [d];
    assert CloseOrder.Backwards([d, u], resolved) == [u, d];
  }

  /** d and x are one instance, u is another. */
  predicate OneShared(instance: Instances, d: ProviderGraph.RefKey, u: ProviderGraph.RefKey, x: ProviderGraph.RefKey) {
    && !instance(x).isNil && !instance(u).isNil
    && instance(x).key.Some? && instance(d) == instance(x) && instance(u).key != instance(x).key
  }

  /**
   * It takes different instances. Where d and x are one instance, declared around
   * a u that depends on d, Close lists x, u, d, with u before the d it depends on,
   * and yet every Close that comes to the end closes the instance of d before that of u.
   */
  lemma SharedInstanceClosesEarly(
    graph: ProviderGraph.Defs, d: ProviderGraph.RefKey, u: ProviderGraph.RefKey, x: ProviderGraph.RefKey,
    instance: Instances, schedule: seq<Event>, i: nat, j: nat)
    requires OneDependency(graph, d, u, x) && OneShared(instance, d, u, x)
    requires var services := Listed([], CloseOrder.Backwards(CloseOrder.CloseOrderOf(graph, [d, u, x]), {d, u, x}), instance, []);
             && After(services, schedule).next == |services| == 3
             && Closes(services, After(services, schedule), i, 1) && Closes(services, After(services, schedule), j, 2)
    ensures var out := CloseOrder.Backwards(CloseOrder.CloseOrderOf(graph, [d, u, x]), {d, u, x});
            out == [x, u, d] && CloseOrder.Precedes(out, u, d)
    ensures j < i
  {
    ListedBackwards(graph, d, u, x);
    var services := Listed([], [x, u, d], instance, []);
    assert [x, u, d][1] == u && [x, u, d][2] == d;
    assert services[0] == instance(x) && services[1] == instance(u) && services[2] == instance(d);
    assert SameInstance(services, 0, 2) && FirstPlace(services, 2) == 0;
    assert !SameInstance(services, 0, 1) && FirstPlace(services, 1) == 1;
    ClosedInListOrder(services, schedule, 2, 1, j, i);
  }

  /** And Close comes to the end, however it began. */
  lemma SharedInstanceIsClosed(
    graph: ProviderGraph.Defs, d: ProviderGraph.RefKey, u: ProviderGraph.RefKey, x: ProviderGraph.RefKey,
    instance: Instances, schedule: seq<Event>)
    returns (more: seq<Event>, i: nat, j: nat)
    requires OneDependency(graph, d, u, x) && OneShared(instance, d, u, x)
    ensures var services := Listed([], CloseOrder.Backwards(CloseOrder.CloseOrderOf(graph, [d, u, x]), {d, u, x}), instance, []);
            var s := After(services, schedule + more);
            && s.next == |services| == 3 && Closes(services, s, i, 1) && Closes(services, s, j, 2) && j < i
  {
    ListedBackwards(graph, d, u, x);
    var services := Listed([], [x, u, d], instance, []);
    assert services[1] == instance(u) && services[2] == instance(d);
    AfterInv(services, schedule);
    more := SomeEnd(services, After(services, schedule), Closed);
    RunOn(services, Init(), schedule, more);
    i := ClosedAtFirstPlace(services, schedule + more, 1);
    j := ClosedAtFirstPlace(services, schedule + more, 2);
    SharedInstanceClosesEarly(graph, d, u, x, instance, schedule + more, i, j);
  }

  lemma {:induction false} RunOn(services: seq<Service>, s: State, first: seq<Event>, more: seq<Event>)
    ensures Run(services, s, first + more) == Run(services, Run(services, s, first), more)
    decreases |first|
  {
    if first == [] {
      assert first + more == more;
    } else {
      assert (first + more)[1..] == first[1..] + more;
      RunOn(services, if Enabled(services, s, first[0]) then Step(services, s, first[0]) else s, first[1..], more);
    }
  }
}
