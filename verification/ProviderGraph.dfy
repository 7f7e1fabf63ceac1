/**
 * The wiring graph of container/provide.go: validation when a container is
 * built and the order in which resolved providers are closed.
 */
module ProviderGraph {
  import opened Basics

  datatype RefKey = RefKey(service: string, name: string)

  datatype Provider = Provider(key: RefKey, site: string, deps: seq<RefKey>, optional: bool, eager: bool)

  datatype GraphError =
    | DuplicateRef(first: string, second: string)
    | NotWired(dep: RefKey)
    | DependencyCycle(path: seq<RefKey>)

  type Defs = map<RefKey, Provider>

  // ------------------------------------------------------------ what is meant

  predicate Declared(defs: seq<Provider>, n: nat, k: RefKey)
    requires n <= |defs|
  {
    exists i :: 0 <= i < n && defs[i].key == k
  }

  /** Two of the first n declarations are for k. */
  predicate Duplicated(defs: seq<Provider>, n: nat, k: RefKey)
    requires n <= |defs|
  {
    exists i, j :: 0 <= i < j < n && defs[i].key == k && defs[j].key == k
  }

  /** How many of the first n declarations are for k. */
  function Declarations(defs: seq<Provider>, n: nat, k: RefKey): nat
    requires n <= |defs|
  {
    if n == 0 then 0 else Declarations(defs, n - 1, k) + (if defs[n - 1].key == k then 1 else 0)
  }

  lemma {:induction false} DeclarationsMean(defs: seq<Provider>, n: nat, k: RefKey)
    requires n <= |defs|
    ensures Declarations(defs, n, k) >= 1 <==> Declared(defs, n, k)
    ensures Declarations(defs, n, k) >= 2 <==> Duplicated(defs, n, k)
  {
    if n > 0 {
      DeclarationsMean(defs, n - 1, k);
      if Declared(defs, n - 1, k) && defs[n - 1].key == k {
        var i :| 0 <= i < n - 1 && defs[i].key == k;
        assert Duplicated(defs, n, k);
      }
    }
  }

  /** Where k is first declared, among the first n. */
  function FirstSite(defs: seq<Provider>, n: nat, k: RefKey): string
    requires n <= |defs|
  {
    if n == 0 then ""
    else if Declarations(defs, n - 1, k) > 0 then FirstSite(defs, n - 1, k)
    else if defs[n - 1].key == k then defs[n - 1].site
    else ""
  }

  /** Where k is last declared, among the first n. */
  function LastSite(defs: seq<Provider>, n: nat, k: RefKey): string
    requires n <= |defs|
  {
    if n == 0 then "" else if defs[n - 1].key == k then defs[n - 1].site else LastSite(defs, n - 1, k)
  }

  /** They are the sites of the first and the last declaration. */
  lemma {:induction false} SitesMean(defs: seq<Provider>, n: nat, k: RefKey) returns (i: nat, j: nat)
    requires n <= |defs| && Declared(defs, n, k)
    ensures i <= j < n && defs[i].key == defs[j].key == k
    ensures forall l :: 0 <= l < n && defs[l].key == k ==> i <= l <= j
    ensures FirstSite(defs, n, k) == defs[i].site && LastSite(defs, n, k) == defs[j].site
  {
    DeclarationsMean(defs, n - 1, k);
    if Declared(defs, n - 1, k) {
      i, j := SitesMean(defs, n - 1, k);
      j := if defs[n - 1].key == k then n - 1 else j;
    } else {
      i, j := n - 1, n - 1;
    }
  }

  /** d needs a provider that nobody declares. */
  predicate Misses(defs: seq<Provider>, d: Provider) {
    !d.optional && exists i :: 0 <= i < |d.deps| && !Declared(defs, |defs|, d.deps[i])
  }

  predicate MissesDep(defs: seq<Provider>, d: Provider, dep: RefKey) {
    !d.optional && dep in d.deps && !Declared(defs, |defs|, dep)
  }

  /** Number j is the first dependency of d that nobody declares. */
  predicate FirstMissing(defs: seq<Provider>, d: Provider, j: nat)
    requires j < |d.deps|
  {
    MissesDep(defs, d, d.deps[j]) && forall m :: 0 <= m < j ==> Declared(defs, |defs|, d.deps[m])
  }

  predicate MissesFirst(defs: seq<Provider>, d: Provider, dep: RefKey) {
    exists j :: 0 <= j < |d.deps| && FirstMissing(defs, d, j) && d.deps[j] == dep
  }

  /** A declaration for k among the first n misses a provider. */
  predicate Unwired(defs: seq<Provider>, n: nat, k: RefKey)
    requires n <= |defs|
  {
    exists i :: 0 <= i < n && defs[i].key == k && Misses(defs, defs[i])
  }

  /** A walk along dependencies from a provider back to itself. */
  predicate RealCycle(graph: Defs, path: seq<RefKey>) {
    && |path| >= 2 && path[0] == path[|path| - 1]
    && Walk(graph, path)
  }

  predicate Walk(graph: Defs, path: seq<RefKey>) {
    && (forall i :: 0 <= i < |path| ==> path[i] in graph)
    && (forall i :: 0 <= i < |path| - 1 ==> path[i + 1] in graph[path[i]].deps)
  }

  lemma UnwiredStep(defs: seq<Provider>, i: nat)
    requires i < |defs|
    ensures forall k :: Unwired(defs, i + 1, k) <==> Unwired(defs, i, k) || (k == defs[i].key && Misses(defs, defs[i]))
  {
    forall k ensures Unwired(defs, i + 1, k) <==> Unwired(defs, i, k) || (k == defs[i].key && Misses(defs, defs[i])) {
      if j :| 0 <= j < i + 1 && defs[j].key == k && Misses(defs, defs[j]) {
        assert j < i ==> Unwired(defs, i, k);
      }
    }
  }

  /** The error e is a true statement about k. */
  predicate Justified(defs: seq<Provider>, graph: Defs, k: RefKey, e: GraphError) {
    match e
    case DuplicateRef(first, second) =>
      Duplicated(defs, |defs|, k) && first == FirstSite(defs, |defs|, k) && second == LastSite(defs, |defs|, k)
    case NotWired(dep) =>
      !Duplicated(defs, |defs|, k) && exists i :: 0 <= i < |defs| && defs[i].key == k && MissesFirst(defs, defs[i], dep)
    case DependencyCycle(path) => RealCycle(graph, path) && k in path
  }

  /**
   * Every wired provider without an error is listed, after each wired
   * dependency of it that has no error either.
   */
  ghost predicate TopologicalOrder(graph: Defs, errs: set<RefKey>, order: seq<RefKey>) {
    && (forall k :: k in graph && k !in errs ==> k in order)
    && (forall j :: 0 <= j < |order| ==> DepsBefore(graph, errs, order, j))
  }

  /** Number j is in error, or its dependencies are in error or come before it. */
  ghost predicate DepsBefore(graph: Defs, errs: set<RefKey>, order: seq<RefKey>, j: nat)
    requires j < |order|
  {
    order[j] in errs || DepsFirst(graph, errs, order, j)
  }

  ghost predicate DepsFirst(graph: Defs, errs: set<RefKey>, order: seq<RefKey>, j: nat)
    requires j < |order|
  {
    order[j] in graph ==> forall d :: d in graph[order[j]].deps && d in graph ==> d in errs || d in order[..j]
  }

  /** Where k first appears. */
  function IndexOf(order: seq<RefKey>, k: RefKey): (i: nat)
    requires k in order
    ensures i < |order| && order[i] == k
  {
    if order[0] == k then 0 else IndexOf(order[1..], k) + 1
  }

  lemma {:induction false} IndexOfIsFirst(order: seq<RefKey>, k: RefKey, i: nat)
    requires i < |order| && order[i] == k
    ensures IndexOf(order, k) <= i
  {
    if order[0] != k {
      assert order[1..][i - 1] == k;
      IndexOfIsFirst(order[1..], k, i - 1);
    }
  }

  lemma DependencyComesFirst(graph: Defs, errs: set<RefKey>, order: seq<RefKey>, k: RefKey, d: RefKey)
    requires TopologicalOrder(graph, errs, order)
    requires k in graph && k !in errs && d in graph[k].deps && d in graph && d !in errs
    ensures IndexOf(order, d) < IndexOf(order, k)
  {
    var j := IndexOf(order, k);
    assert DepsBefore(graph, errs, order, j) && d in order[..j];
    var i :| 0 <= i < j && order[..j][i] == d;
    IndexOfIsFirst(order, d, i);
  }

  lemma {:induction false} WalkDescends(graph: Defs, errs: set<RefKey>, order: seq<RefKey>, path: seq<RefKey>, n: nat)
    requires TopologicalOrder(graph, errs, order) && Walk(graph, path)
    requires forall i :: 0 <= i < |path| ==> path[i] !in errs
    requires 0 < n < |path|
    ensures IndexOf(order, path[n]) < IndexOf(order, path[0])
  {
    DependencyComesFirst(graph, errs, order, path[n - 1], path[n]);
    if n > 1 {
      WalkDescends(graph, errs, order, path, n - 1);
    }
  }

  /** Among providers without an error nothing leads back to itself. */
  lemma NoCycleWithoutError(graph: Defs, errs: set<RefKey>, order: seq<RefKey>, path: seq<RefKey>)
    requires TopologicalOrder(graph, errs, order) && RealCycle(graph, path)
    ensures exists i :: 0 <= i < |path| && path[i] in errs
  {
    if forall i :: 0 <= i < |path| ==> path[i] !in errs {
      WalkDescends(graph, errs, order, path, |path| - 1);
    }
  }

  // -------------------------------------------------------- validateProviders

  function Elements(s: seq<RefKey>): set<RefKey> {
    set k | k in s
  }

  /** The errors after the first n providers of a cycle have been marked with it. */
  ghost predicate Marked(before: map<RefKey, GraphError>, errs: map<RefKey, GraphError>, path: seq<RefKey>, n: nat)
    requires n <= |path|
  {
    && errs.Keys == before.Keys + Elements(path[..n])
    && forall k :: k in errs ==> errs[k] == if k in before then before[k] else DependencyCycle(path)
  }

  lemma MarkNext(before: map<RefKey, GraphError>, errs: map<RefKey, GraphError>, path: seq<RefKey>, n: nat)
    requires n < |path| && Marked(before, errs, path, n)
    ensures Marked(before, if path[n] in errs then errs else errs[path[n] := DependencyCycle(path)], path, n + 1)
  {
    assert Elements(path[..n + 1]) == Elements(path[..n]) + {path[n]};
  }

  /** The maps that the closures of validateProviders share. */
  class Validator {
    var errs: map<RefKey, GraphError>
    var visited: set<RefKey>
    var inStack: set<RefKey>
    var byKey: Defs
    ghost var finished: seq<RefKey>

    constructor ()
      ensures errs == map[] && visited == {} && inStack == {} && byKey == map[] && finished == []
    {
      errs, visited, inStack, byKey := map[], {}, {}, map[];
      finished := [];
    }

    /** Every error recorded for a provider of the graph is a cycle through it. */
    ghost predicate CyclesAreReal()
      reads this
    {
      forall k :: k in errs && k in byKey ==>
        errs[k].DependencyCycle? && RealCycle(byKey, errs[k].path) && k in errs[k].path
    }

    /** Finished providers come after their dependencies, up to recorded errors. */
    ghost predicate FinishedInOrder()
      reads this
    {
      && (forall k :: k in visited <==> k in finished)
      && (forall j :: 0 <= j < |finished| ==> DepsFirst(byKey, errs.Keys, finished, j))
    }

    /** stack is the walk from a root to the caller of Visit(k). */
    ghost predicate OnStack(stack: seq<RefKey>, k: RefKey)
      reads this
    {
      && inStack == Elements(stack) && Distinct(stack) && Walk(byKey, stack)
      && (stack != [] ==> k in byKey && k in byKey[stack[|stack| - 1]].deps)
    }

    ghost predicate Valid()
      reads this
    {
      CyclesAreReal() && FinishedInOrder()
    }

    /** Records the cycle for each provider on it that has no error yet. */
    method MarkCycle(path: seq<RefKey>)
      requires Valid() && RealCycle(byKey, path)
      modifies this`errs
      ensures Valid()
      ensures errs.Keys == old(errs.Keys) + Elements(path)
      ensures forall k :: k in errs ==> errs[k] == if k in old(errs) then old(errs[k]) else DependencyCycle(path)
    {
      for i := 0 to |path|
        invariant Marked(old(errs), errs, path, i)
      {
        MarkNext(old(errs), errs, path, i);
        if path[i] !in errs {
          errs := errs[path[i] := DependencyCycle(path)];
        }
      }
      assert path[..|path|] == path;
      MarkedIsValid(old(errs), path);
    }

    /** Cycles added to the errors are real, and errors added do not disturb the order. */
    lemma MarkedIsValid(before: map<RefKey, GraphError>, path: seq<RefKey>)
      requires Marked(before, errs, path, |path|) && RealCycle(byKey, path)
      requires forall k :: k in before && k in byKey ==>
                 before[k].DependencyCycle? && RealCycle(byKey, before[k].path) && k in before[k].path
      requires forall k :: k in visited <==> k in finished
      requires forall j :: 0 <= j < |finished| ==> DepsFirst(byKey, before.Keys, finished, j)
      ensures Valid()
    {
      forall k | k in errs && k in byKey ensures errs[k].DependencyCycle? && RealCycle(byKey, errs[k].path) && k in errs[k].path {
        assert path[..|path|] == path;
      }
      forall j | 0 <= j < |finished| ensures DepsFirst(byKey, errs.Keys, finished, j) {
        assert DepsFirst(byKey, before.Keys, finished, j);
      }
    }

    /** k is on the stack already: the walk from there back to k is a cycle. */
    method FoundCycle(k: RefKey, stack: seq<RefKey>)
      requires Valid() && OnStack(stack, k) && k in inStack
      modifies this`errs
      ensures Valid() && k in errs
      ensures forall e :: e in old(errs) ==> e in errs && errs[e] == old(errs[e])
      ensures exists start :: 0 <= start < |stack| && stack[start] == k
                && errs.Keys == old(errs.Keys) + Elements(stack[start..])
                && forall e :: e in errs && e !in old(errs) ==> errs[e] == DependencyCycle(stack[start..] + [k])
      ensures forall e :: e in errs ==> e in old(errs) || e in byKey
    {
      var start := 0;
      while stack[start] != k
        invariant 0 <= start < |stack| && k in stack[start..]
        decreases |stack| - start
      {
        assert stack[start..][1..] == stack[start + 1..];
        start := start + 1;
      }
      var path := stack[start..] + [k];
      assert path[|path| - 1] == k;
      assert Elements(path) == Elements(stack[start..]);
      MarkCycle(path);
    }

    /** k is done: all its dependencies are visited or in error. */
    method Finish(k: RefKey)
      requires Valid() && k in byKey
      requires forall d :: d in byKey[k].deps && d in byKey ==> d in visited || d in errs
      modifies this`visited, this`finished
      ensures Valid() && visited == old(visited) + {k} && finished == old(finished) + [k]
    {
      visited := visited + {k};
      ghost var before := finished;
      finished := finished + [k];
      assert finished[..|before|] == before;
      forall j | 0 <= j < |finished| ensures DepsFirst(byKey, errs.Keys, finished, j) {
        if j < |before| {
          assert DepsFirst(byKey, errs.Keys, before, j);
          assert finished[j] == before[j] && finished[..j] == before[..j];
        }
      }
    }

    /** Depth-first search from k; stack is the path that led here. */
    method Visit(k: RefKey, stack: seq<RefKey>)
      requires Valid() && OnStack(stack, k)
      requires k in byKey || k in errs
      modifies this`errs, this`visited, this`inStack, this`finished
      ensures Valid() && inStack == old(inStack)
      ensures k in visited || k in errs
      ensures old(finished) <= finished
      ensures old(errs.Keys) <= errs.Keys && forall e :: e in old(errs) ==> errs[e] == old(errs[e])
      ensures forall e :: e in errs ==> e in old(errs) || e in byKey
      decreases byKey.Keys - Elements(stack)
    {
      if k in visited || k in errs {
        return;
      }
      if k in inStack {
        FoundCycle(k, stack);
        return;
      }

      inStack := inStack + {k};
      var stack' := stack + [k];
      assert Elements(stack') == Elements(stack) + {k};
      var deps := byKey[k].deps;
      for i := 0 to |deps|
        invariant Valid() && inStack == Elements(stack')
        invariant old(finished) <= finished
        invariant old(errs.Keys) <= errs.Keys && forall e :: e in old(errs) ==> errs[e] == old(errs[e])
        invariant forall e :: e in errs ==> e in old(errs) || e in byKey
        invariant forall j :: 0 <= j < i && deps[j] in byKey ==> deps[j] in visited || deps[j] in errs
      {
        if deps[i] in byKey {
          assert k !in Elements(stack) && byKey.Keys - Elements(stack') < byKey.Keys - Elements(stack);
          ghost var before := finished;
          Visit(deps[i], stack');
          assert forall e :: e in before ==> e in finished;
        }
      }
      inStack := inStack - {k};
      assert inStack == Elements(stack);
      Finish(k);
    }

    /** The first loop: the first declaration of a key keeps it, later ones are errors. */
    method RecordDuplicates(defs: seq<Provider>) returns (sites: map<RefKey, string>)
      requires errs == map[]
      modifies this`errs
      ensures forall k :: k in sites <==> Declared(defs, |defs|, k)
      ensures forall k :: k in errs <==> Duplicated(defs, |defs|, k)
      ensures forall k :: k in errs ==> errs[k] == DuplicateRef(FirstSite(defs, |defs|, k), LastSite(defs, |defs|, k))
    {
      sites := map[];
      for i := 0 to |defs|
        invariant forall k :: k in sites <==> Declarations(defs, i, k) >= 1
        invariant forall k :: k in sites ==> sites[k] == FirstSite(defs, i, k)
        invariant forall k :: k in errs <==> Declarations(defs, i, k) >= 2
        invariant forall k :: k in errs ==> errs[k] == DuplicateRef(FirstSite(defs, i, k), LastSite(defs, i, k))
      {
        var d := defs[i];
        if d.key in sites {
          errs := errs[d.key := DuplicateRef(sites[d.key], d.site)];
        } else {
          sites := sites[d.key := d.site];
        }
      }
      forall k ensures (k in sites <==> Declared(defs, |defs|, k)) && (k in errs <==> Duplicated(defs, |defs|, k)) {
        DeclarationsMean(defs, |defs|, k);
      }
    }

    /** Why k has an error before any cycle is looked for. */
    ghost predicate StructuralError(defs: seq<Provider>, n: nat, k: RefKey)
      requires n <= |defs|
    {
      Duplicated(defs, |defs|, k) || Unwired(defs, n, k)
    }

    /** The first dependency of d that nobody declares, unless d is optional. */
    method RecordMissing(defs: seq<Provider>, d: Provider, sites: map<RefKey, string>)
      requires forall k :: k in sites <==> Declared(defs, |defs|, k)
      modifies this`errs
      ensures Misses(defs, d) ==> exists dep :: MissesFirst(defs, d, dep) && errs == old(errs)[d.key := NotWired(dep)]
      ensures !Misses(defs, d) ==> errs == old(errs)
    {
      for j := 0 to |d.deps|
        invariant errs == old(errs)
        invariant forall m :: 0 <= m < j ==> d.optional || Declared(defs, |defs|, d.deps[m])
      {
        if d.deps[j] !in sites && !d.optional {
          assert FirstMissing(defs, d, j) && MissesFirst(defs, d, d.deps[j]);
          errs := errs[d.key := NotWired(d.deps[j])];
          return;
        }
      }
    }

    /** The second loop: providers with a dependency nobody declares. */
    method RecordUnwired(defs: seq<Provider>, sites: map<RefKey, string>)
      requires forall k :: k in sites <==> Declared(defs, |defs|, k)
      requires forall k :: k in errs <==> Duplicated(defs, |defs|, k)
      requires forall k :: k in errs ==> errs[k] == DuplicateRef(FirstSite(defs, |defs|, k), LastSite(defs, |defs|, k))
      modifies this`errs
      ensures forall k :: k in errs <==> StructuralError(defs, |defs|, k)
      ensures forall k :: k in errs ==> Justified(defs, map[], k, errs[k])
    {
      for i := 0 to |defs|
        invariant forall k :: k in errs <==> Duplicated(defs, |defs|, k) || Unwired(defs, i, k)
        invariant forall k :: k in errs ==> Justified(defs, map[], k, errs[k])
      {
        UnwiredStep(defs, i);
        if defs[i].key !in errs {
          ghost var before := errs;
          RecordMissing(defs, defs[i], sites);
          UnwiredJustified(defs, i, before, errs);
        }
      }
    }

    lemma UnwiredJustified(defs: seq<Provider>, i: nat, before: map<RefKey, GraphError>, after: map<RefKey, GraphError>)
      requires i < |defs| && !Duplicated(defs, |defs|, defs[i].key)
      requires forall k :: k in before ==> Justified(defs, map[], k, before[k])
      requires after == before || exists dep :: MissesFirst(defs, defs[i], dep) && after == before[defs[i].key := NotWired(dep)]
      ensures forall k :: k in after ==> Justified(defs, map[], k, after[k])
    {
      forall k | k in after ensures Justified(defs, map[], k, after[k]) {
        assert k != defs[i].key ==> k in before && after[k] == before[k];
      }
    }

    /** The third loop: the graph holds the providers without an error so far. */
    method IndexGraph(defs: seq<Provider>)
      requires byKey == map[]
      modifies this`byKey
      ensures forall k :: k in byKey <==> Declared(defs, |defs|, k) && k !in errs
      ensures forall k :: k in byKey ==> byKey[k] in defs && byKey[k].key == k
    {
      for i := 0 to |defs|
        invariant forall k :: k in byKey <==> Declared(defs, i, k) && k !in errs
        invariant forall k :: k in byKey ==> byKey[k] in defs && byKey[k].key == k
      {
        if defs[i].key !in errs {
          byKey := byKey[defs[i].key := defs[i]];
        }
      }
    }

    /** What comes before the search: the errors that need no search, and the graph of the rest. */
    method Prepare(defs: seq<Provider>)
      requires errs == map[] && byKey == map[]
      modifies this`errs, this`byKey
      ensures forall k :: k in errs <==> StructuralError(defs, |defs|, k)
      ensures forall k :: k in errs ==> Declared(defs, |defs|, k) && Justified(defs, map[], k, errs[k])
      ensures forall k :: k in byKey <==> Declared(defs, |defs|, k) && k !in errs
      ensures forall k :: k in byKey ==> byKey[k] in defs && byKey[k].key == k
      ensures forall i :: 0 <= i < |defs| ==> defs[i].key in byKey || defs[i].key in errs
    {
      var sites := RecordDuplicates(defs);
      RecordUnwired(defs, sites);
      IndexGraph(defs);
      forall i | 0 <= i < |defs| ensures Declared(defs, |defs|, defs[i].key) {
      }
    }

    /** The search from every declaration in turn. */
    method VisitAll(defs: seq<Provider>)
      requires visited == {} && inStack == {} && finished == []
      requires forall k :: k in byKey ==> k !in errs
      requires forall i :: 0 <= i < |defs| ==> defs[i].key in byKey || defs[i].key in errs
      modifies this`errs, this`visited, this`inStack, this`finished
      ensures Valid()
      ensures forall k :: k in old(errs) ==> k in errs && errs[k] == old(errs[k])
      ensures forall k :: k in errs ==> k in old(errs) || k in byKey
      ensures forall i :: 0 <= i < |defs| ==> defs[i].key in visited || defs[i].key in errs
    {
      for i := 0 to |defs|
        invariant Valid() && inStack == {}
        invariant forall k :: k in old(errs) ==> k in errs && errs[k] == old(errs[k])
        invariant forall k :: k in errs ==> k in old(errs) || k in byKey
        invariant forall j :: 0 <= j < i ==> defs[j].key in visited || defs[j].key in errs
      {
        ghost var before := finished;
        Visit(defs[i].key, []);
        assert forall e :: e in before ==> e in finished;
      }
    }
  }

  /**
   * validateProviders. A provider has an error exactly for one of three
   * reasons, each of them real, and what is left without an error can be
   * ordered so that dependencies come first.
   */
  method ValidateProviders(defs: seq<Provider>) returns (errs: map<RefKey, GraphError>, byKey: Defs, ghost order: seq<RefKey>)
    ensures forall k :: k in byKey <==>
              Declared(defs, |defs|, k) && !Duplicated(defs, |defs|, k) && !Unwired(defs, |defs|, k)
    ensures forall k :: k in byKey ==> byKey[k] in defs && byKey[k].key == k
    ensures forall k :: k in errs ==> Declared(defs, |defs|, k)
    ensures forall k :: Declared(defs, |defs|, k) && k !in byKey ==> k in errs
    ensures forall k :: k in errs ==> Justified(defs, byKey, k, errs[k])
    ensures TopologicalOrder(byKey, errs.Keys, order)
  {
    var v := new Validator();
    v.Prepare(defs);
    ghost var structural := v.errs;
    v.VisitAll(defs);
    errs, byKey, order := v.errs, v.byKey, v.finished;
    AllJustified(defs, byKey, structural, errs);
    EachDealtWith(defs, byKey, structural, errs, order);
  }

  /** What the search leaves is what was found before it and real cycles. */
  lemma AllJustified(defs: seq<Provider>, byKey: Defs, structural: map<RefKey, GraphError>, errs: map<RefKey, GraphError>)
    requires forall k :: k in structural ==> k in errs && errs[k] == structural[k] && Justified(defs, map[], k, structural[k])
    requires forall k :: k in errs && k !in structural ==>
               errs[k].DependencyCycle? && RealCycle(byKey, errs[k].path) && k in errs[k].path
    ensures forall k :: k in errs ==> Justified(defs, byKey, k, errs[k])
  {
    forall k | k in errs ensures Justified(defs, byKey, k, errs[k]) {
      if k in structural {
        StaysJustified(defs, byKey, k, structural[k]);
      } else {
        CycleIsJustified(defs, byKey, k, errs[k]);
      }
    }
  }

  /** Every provider without an error has been visited. */
  lemma EachDealtWith(
    defs: seq<Provider>, byKey: Defs, structural: map<RefKey, GraphError>, errs: map<RefKey, GraphError>, order: seq<RefKey>)
    requires forall k :: k in byKey <==> Declared(defs, |defs|, k) && k !in structural
    requires forall i :: 0 <= i < |defs| ==> defs[i].key in order || defs[i].key in errs
    ensures forall k :: k in byKey && k !in errs ==> k in order
  {
    forall k | k in byKey && k !in errs ensures k in order {
      var i :| 0 <= i < |defs| && defs[i].key == k;
    }
  }

  lemma CycleIsJustified(defs: seq<Provider>, graph: Defs, k: RefKey, e: GraphError)
    requires e.DependencyCycle? && RealCycle(graph, e.path) && k in e.path
    ensures Justified(defs, graph, k, e)
  {
  }

  /** Errors found before the search do not speak of the graph. */
  lemma StaysJustified(defs: seq<Provider>, graph: Defs, k: RefKey, e: GraphError)
    requires Justified(defs, map[], k, e)
    ensures Justified(defs, graph, k, e)
  {
    var empty: Defs := map[];
    assert e.DependencyCycle? ==> RealCycle(empty, e.path) && e.path[0] in empty;
  }
}
