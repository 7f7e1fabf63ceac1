/**
 * New of container/container.go: definitions, validation and the eager builds,
 * which resolve one provider after the other before anyone else can.
 */
module Container {
  import opened Basics
  import opened ProviderGraph
  import opened Resolve
  import opened ResolveEnds
  import opened ResolveValues
  import CloseOrder

  /** provErrs holds what validation found and what eager builds returned. */
  datatype StoredError = FromGraph(graphError: GraphError) | FromBuild(failure: Failure)

  /** No call is under way. */
  predicate Quiet(s: State) {
    forall t :: 0 <= t < |s.threads| ==> s.threads[t].mode.Done? && s.threads[t].frames == []
  }

  /** Thread t resolves k; if that has failed, k has no entry. */
  predicate Resolving(s: State, t: nat, k: RefKey)
    requires t < |s.threads|
  {
    var th := s.threads[t];
    && (th.frames != [] ==> th.frames[0].key == k)
    && (match th.mode
        case Want(x) => th.frames == [] ==> x == k
        case Wait(x, _) => th.frames == [] ==> x == k
        case Run => true
        case Store(_) => true
        case Close(res) => |th.frames| == 1 && res.Fail? ==> k !in s.slots
        case Deliver(x, res) => th.frames == [] ==> x == k && (res.Fail? ==> !IsReady(s, k))
        case Done(x, res) => x == k && (res.Fail? ==> !IsReady(s, k)))
  }

  lemma StepResolving(w: Wiring, s: State, t: nat, c: Choice, k: RefKey)
    requires Inv(w, s) && Enabled(s, t) && Resolving(s, t, k)
    ensures Resolving(Step(w, s, t, c), t, k)
  {
    var th := s.threads[t];
    assert ThreadInv(w, s, t);
    if th.frames != [] {
      assert FrameInv(w, s, t, |th.frames| - 1);
    }
    if k in s.slots {
      assert SlotInv(w, s, k);
    }
    match th.mode
    case Want(_) =>
    case Wait(_, _) =>
    case Run =>
    case Store(_) =>
    case Close(_) =>
    case Deliver(_, _) =>
  }

  /** One more call. */
  function Joined(s: State, k: RefKey): State {
    s.(threads := s.threads + [Thread([], Want(k))])
  }

  /** A call joins; nobody else notices. */
  lemma CallJoins(w: Wiring, s: State, k: RefKey)
    requires Inv(w, s)
    ensures Inv(w, Joined(s, k))
  {
    var s' := Joined(s, k);
    forall t | 0 <= t < |s'.threads| ensures ThreadInv(w, s', t) {
      assert t < |s.threads| ==> ThreadInv(w, s, t);
    }
    forall t, j | 0 <= t < |s'.threads| && 0 <= j < |s'.threads[t].frames| ensures FrameInv(w, s', t, j) {
      assert FrameInv(w, s, t, j);
    }
    forall e | 0 <= e < |s'.entries| ensures EntryInv(w, s', e) {
      assert EntryInv(w, s, e);
    }
    forall x | x in s'.slots ensures SlotInv(w, s', x) {
      assert SlotInv(w, s, x);
    }
  }

  /** Without a call under way every slot holds a value. */
  lemma QuietSlotsAreReady(w: Wiring, s: State, k: RefKey)
    requires Inv(w, s) && Quiet(s) && k in s.slots
    ensures IsReady(s, k)
  {
    assert SlotInv(w, s, k);
    assert s.slots[k].Building? ==> !EntryInv(w, s, s.slots[k].entry);
  }

  /** With every other call returned, the last one can always move. */
  lemma LastCallMoves(w: Wiring, topo: seq<RefKey>, s: State, t: nat)
    requires Inv(w, s) && TopologicalOrder(w.graph, w.errs, topo) && Unfinished(s, t)
    requires forall u :: 0 <= u < |s.threads| && u != t ==> s.threads[u].mode.Done?
    ensures Enabled(s, t)
  {
    var u := FollowOwners(w, topo, s, t);
  }

  /** Every value of s is in s' too. */
  ghost predicate KeepsReady(s: State, s': State) {
    forall x :: IsReady(s, x) ==> x in s'.slots && s'.slots[x] == s.slots[x]
  }

  /** The last call, t, of a state that began as s. */
  ghost predicate Alone(w: Wiring, s: State, s': State, t: nat, k: RefKey) {
    && |s'.threads| == t + 1 && Inv(w, s') && Resolving(s', t, k) && KeepsReady(s, s')
    && (forall u :: 0 <= u < t ==> s'.threads[u].mode.Done? && s'.threads[u].frames == [])
  }

  lemma AloneStep(w: Wiring, topo: seq<RefKey>, s: State, s': State, t: nat, c: Choice, k: RefKey)
    requires Alone(w, s, s', t, k) && TopologicalOrder(w.graph, w.errs, topo) && Unfinished(s', t)
    ensures Enabled(s', t) && Alone(w, s, Step(w, s', t, c), t, k)
    ensures Below(MeasureOf(w, |topo|, Step(w, s', t, c)), MeasureOf(w, |topo|, s'))
  {
    LastCallMoves(w, topo, s', t);
    StepInv(w, s', t, c);
    StepMovesOne(w, s', t, c);
    StepResolving(w, s', t, c, k);
    forall x | IsReady(s, x) ensures x in Step(w, s', t, c).slots && Step(w, s', t, c).slots[x] == s.slots[x] {
      StepKeepsReady(w, s', t, c, x);
    }
    RecursionIsBounded(w, topo, Step(w, s', t, c), t);
    StepLowers(w, |topo|, s', t, c);
  }

  lemma AloneStarts(w: Wiring, s: State, k: RefKey)
    requires Inv(w, s) && Quiet(s)
    ensures Alone(w, s, Joined(s, k), |s.threads|, k)
  {
    CallJoins(w, s, k);
  }

  lemma AloneEnds(w: Wiring, s: State, s': State, t: nat, k: RefKey)
    requires Alone(w, s, s', t, k) && s'.threads[t].mode.Done?
    ensures Quiet(s')
    ensures match s'.threads[t].mode.res
            case Val(v) => k in s'.slots && s'.slots[k] == Ready(v)
            case Fail(_) => k !in s'.slots
  {
    assert ThreadInv(w, s', t);
    if k in s'.slots {
      QuietSlotsAreReady(w, s', k);
    }
  }

  // ------------------------------------------------- what a lone call builds

  /** x is k, or something that k depends on. */
  ghost predicate Reaches(graph: Defs, k: RefKey, x: RefKey) {
    exists path :: IsPath(graph, path, k, x)
  }

  predicate IsPath(graph: Defs, path: seq<RefKey>, k: RefKey, x: RefKey) {
    path != [] && path[0] == k && path[|path| - 1] == x && DependencyPath(graph, path)
  }

  /** A stack is a path along dependencies. */
  lemma FramesReach(w: Wiring, s: State, t: nat, j: nat)
    requires Inv(w, s) && t < |s.threads| && j < |s.threads[t].frames|
    ensures Reaches(w.graph, s.threads[t].frames[0].key, s.threads[t].frames[j].key)
  {
    var frames := s.threads[t].frames;
    var path := seq(j + 1, i requires 0 <= i < j + 1 => frames[i].key);
    forall i | 0 <= i < |path| - 1 ensures Needs(w.graph, path[i], path[i + 1]) {
      assert FrameInv(w, s, t, i) && FrameInv(w, s, t, i + 1);
    }
    assert IsPath(w.graph, path, frames[0].key, frames[j].key);
  }

  /** Nothing is resolved but what was, and what k needs. */
  ghost predicate ReadyFor(w: Wiring, s: State, s': State, k: RefKey) {
    forall x :: IsReady(s', x) ==> IsReady(s, x) || Reaches(w.graph, k, x)
  }

  lemma StepReadyFor(w: Wiring, s: State, s': State, t: nat, c: Choice, k: RefKey)
    requires Inv(w, s') && Enabled(s', t) && Resolving(s', t, k) && ReadyFor(w, s, s', k)
    ensures ReadyFor(w, s, Step(w, s', t, c), k)
  {
    var th := s'.threads[t];
    if th.mode.Store? {
      FramesReach(w, s', t, |th.frames| - 1);
    }
    forall x | IsReady(Step(w, s', t, c), x) ensures IsReady(s, x) || Reaches(w.graph, k, x) {
      assert IsReady(s', x) || (th.mode.Store? && x == Top(th).key);
    }
  }

  lemma {:induction false} RunAppend(w: Wiring, s: State, schedule: seq<Event>, e: Event)
    ensures RunAll(w, s, schedule + [e]) == Next(w, RunAll(w, s, schedule), e)
    decreases |schedule|
  {
    if schedule == [] {
      assert [e][1..] == [];
    } else {
      assert (schedule + [e])[0] == schedule[0] && (schedule + [e])[1..] == schedule[1..] + [e];
      RunAppend(w, Next(w, s, schedule[0]), schedule[1..], e);
    }
  }

  /** The lone call of k that schedule describes leaves s' and returns res. */
  ghost predicate IsLoneCall(w: Wiring, s: State, k: RefKey, schedule: seq<Event>, s': State, res: Res) {
    && s' == RunAll(w, Joined(s, k), schedule)
    && |s'.threads| == |s.threads| + 1 && s'.threads[|s.threads|].mode == Done(k, res)
  }

  /** resolveProvider while nobody else is resolving. */
  method ResolveAlone(w: Wiring, ghost topo: seq<RefKey>, s: State, k: RefKey, choices: nat -> Choice)
    returns (s': State, res: Res, ghost schedule: seq<Event>)
    requires Inv(w, s) && Quiet(s) && TopologicalOrder(w.graph, w.errs, topo)
    ensures Inv(w, s') && Quiet(s') && KeepsReady(s, s') && ReadyFor(w, s, s', k)
    ensures IsLoneCall(w, s, k, schedule, s', res)
    ensures match res
            case Val(v) => k in s'.slots && s'.slots[k] == Ready(v)
            case Fail(_) => k !in s'.slots
  {
    var t := |s.threads|;
    s', schedule := Joined(s, k), [];
    AloneStarts(w, s, k);
    var i := 0;
    ghost var m := MeasureOf(w, |topo|, s');
    while !s'.threads[t].mode.Done?
      invariant Alone(w, s, s', t, k) && ReadyFor(w, s, s', k) && m == MeasureOf(w, |topo|, s')
      invariant s' == RunAll(w, Joined(s, k), schedule)
      decreases m.unready, m.live, m.storing, m.room, m.work, m.waits
    {
      AloneStep(w, topo, s, s', t, choices(i), k);
      StepReadyFor(w, s, s', t, choices(i), k);
      RunAppend(w, Joined(s, k), schedule, Event(t, choices(i)));
      schedule := schedule + [Event(t, choices(i))];
      s' := Step(w, s', t, choices(i));
      m := MeasureOf(w, |topo|, s');
      i := i + 1;
    }
    AloneEnds(w, s, s', t, k);
    res := s'.threads[t].mode.res;
  }

  lemma JoinedTraced(w: Wiring, s: State, log: seq<Call>, k: RefKey)
    requires Inv(w, s) && Traced(w, s, log)
    ensures Traced(w, Joined(s, k), log)
  {
    forall x ensures SlotOk(Joined(s, k), log, x) {
      assert SlotOk(s, log, x);
      if x in s.slots {
        assert SlotInv(w, s, x);
      }
    }
    forall t | 0 <= t < |Joined(s, k).threads| ensures StoreOk(log, Joined(s, k).threads[t]) {
      assert t < |s.threads| ==> StoreOk(log, s.threads[t]);
    }
    forall i | 0 <= i < |log| ensures CallOk(w, Joined(s, k), log[i]) {
      assert CallOk(w, s, log[i]);
    }
  }

  /** What is cached after a lone call is still what the factories returned, and an error is the call's own. */
  lemma LoneCallTraced(
    w: Wiring, s: State, log: seq<Call>, k: RefKey, schedule: seq<Event>, s': State, res: Res)
    requires Inv(w, s) && Traced(w, s, log) && IsLoneCall(w, s, k, schedule, s', res)
    ensures Traced(w, s', log + Calls(w, Joined(s, k), schedule))
    ensures ResultOk(w, log + Calls(w, Joined(s, k), schedule), |s.threads|, k, res)
  {
    CallJoins(w, s, k);
    JoinedTraced(w, s, log, k);
    RunTraced(w, Joined(s, k), schedule, log);
    RunModeOk(w, Joined(s, k), schedule, log, |s.threads|);
  }

  // --------------------------------------------------------------------- New

  /** The first declaration of each key, as a map. */
  ghost predicate FirstDeclarations(defs: seq<Provider>, n: nat, m: Defs)
    requires n <= |defs|
  {
    && (forall k :: k in m <==> Declarations(defs, n, k) > 0)
    && (forall i :: 0 <= i < n ==> KeptIfFirst(defs, i, m))
    && (forall k :: k in m ==> m[k] in defs && m[k].key == k)
  }

  predicate KeptIfFirst(defs: seq<Provider>, i: nat, m: Defs)
    requires i < |defs|
  {
    Declarations(defs, i, defs[i].key) == 0 ==> defs[i].key in m && m[defs[i].key] == defs[i]
  }

  /** The next declaration is kept if it is the first for its key. */
  lemma NextDeclaration(defs: seq<Provider>, n: nat, m: Defs)
    requires n < |defs| && FirstDeclarations(defs, n, m)
    ensures FirstDeclarations(defs, n + 1, if defs[n].key in m then m else m[defs[n].key := defs[n]])
  {
    var m' := if defs[n].key in m then m else m[defs[n].key := defs[n]];
    DeclarationsMean(defs, n, defs[n].key);
    forall i | 0 <= i < n + 1 ensures KeptIfFirst(defs, i, m') {
      if i < n {
        assert KeptIfFirst(defs, i, m);
        assert defs[i].key == defs[n].key ==> Declared(defs, n, defs[n].key);
      }
    }
  }

  method IndexDefs(defs: seq<Provider>) returns (m: Defs)
    ensures FirstDeclarations(defs, |defs|, m)
  {
    m := map[];
    for i := 0 to |defs|
      invariant FirstDeclarations(defs, i, m)
    {
      NextDeclaration(defs, i, m);
      if defs[i].key !in m {
        m := m[defs[i].key := defs[i]];
      }
    }
  }

  /** The definitions hold the declared keys. */
  lemma DefinedIsDeclared(defs: seq<Provider>, m: Defs, k: RefKey)
    requires FirstDeclarations(defs, |defs|, m)
    ensures k in m <==> Declared(defs, |defs|, k)
  {
    DeclarationsMean(defs, |defs|, k);
  }

  /** The validated graph is part of the definitions, so what holds of it carries over. */
  lemma ValidatedIsIndexed(defs: seq<Provider>, byKey: Defs, m: Defs, k: RefKey)
    requires FirstDeclarations(defs, |defs|, m)
    requires k in byKey && byKey[k] in defs && byKey[k].key == k && !Duplicated(defs, |defs|, k)
    ensures k in m && m[k] == byKey[k]
  {
    var i :| 0 <= i < |defs| && defs[i] == byKey[k];
    assert !Declared(defs, i, k);
    DeclarationsMean(defs, i, k);
    assert KeptIfFirst(defs, i, m);
  }

  lemma OrderCarriesOver(byKey: Defs, m: Defs, errs: set<RefKey>, order: seq<RefKey>)
    requires TopologicalOrder(byKey, errs, order)
    requires forall k :: k in byKey ==> k in m && m[k] == byKey[k]
    requires forall k :: k in m && k !in byKey ==> k in errs
    ensures TopologicalOrder(m, errs, order)
  {
    forall j | 0 <= j < |order| ensures DepsBefore(m, errs, order, j) {
      assert DepsBefore(byKey, errs, order, j);
    }
  }

  lemma CycleCarriesOver(defs: seq<Provider>, byKey: Defs, m: Defs, k: RefKey, e: GraphError)
    requires Justified(defs, byKey, k, e)
    requires forall x :: x in byKey ==> x in m && m[x] == byKey[x]
    ensures Justified(defs, m, k, e)
  {
  }

  lemma ValidationCarriesOver(
    defs: seq<Provider>, errs: map<RefKey, GraphError>, byKey: Defs, m: Defs, order: seq<RefKey>)
    requires FirstDeclarations(defs, |defs|, m)
    requires forall k :: k in byKey ==> byKey[k] in defs && byKey[k].key == k && !Duplicated(defs, |defs|, k)
    requires forall k :: k in m && k !in byKey ==> k in errs
    requires TopologicalOrder(byKey, errs.Keys, order)
    requires forall k :: k in errs ==> Justified(defs, byKey, k, errs[k])
    ensures TopologicalOrder(m, errs.Keys, order)
    ensures forall k :: k in errs ==> Justified(defs, m, k, errs[k])
  {
    forall k | k in byKey ensures k in m && m[k] == byKey[k] {
      ValidatedIsIndexed(defs, byKey, m, k);
    }
    OrderCarriesOver(byKey, m, errs.Keys, order);
    forall k | k in errs ensures Justified(defs, m, k, errs[k]) {
      CycleCarriesOver(defs, byKey, m, k, errs[k]);
    }
  }

  /** provDefs and the errors of validation, seen as one wiring. */
  method Wire(defs: seq<Provider>) returns (provDefs: Defs, errs: map<RefKey, GraphError>, ghost topo: seq<RefKey>)
    ensures FirstDeclarations(defs, |defs|, provDefs)
    ensures TopologicalOrder(provDefs, errs.Keys, topo)
    ensures forall k :: k in errs ==> Justified(defs, provDefs, k, errs[k])
  {
    provDefs := IndexDefs(defs);
    ghost var byKey;
    errs, byKey, topo := ValidateProviders(defs);
    forall k ensures k in provDefs <==> Declared(defs, |defs|, k) {
      DefinedIsDeclared(defs, provDefs, k);
    }
    ValidationCarriesOver(defs, errs, byKey, provDefs, topo);
  }

  /** An eager provider is x or depends on it. */
  ghost predicate Needed(graph: Defs, x: RefKey) {
    exists k :: k in graph && graph[k].eager && Reaches(graph, k, x)
  }

  /** The error on record for k is one that a call for it returned. */
  ghost predicate RightlyFailed(w: Wiring, log: seq<Call>, k: RefKey, e: Failure) {
    exists t: nat :: Explained(w, log, t, k, e)
  }

  /** Every error on record is one of validation, or what the build of an eager provider came to. */
  ghost predicate ErrorsOnRecord(defs: seq<Provider>, w: Wiring, provErrs: map<RefKey, StoredError>, log: seq<Call>) {
    && (forall k :: k in provErrs && provErrs[k].FromGraph? ==> Justified(defs, w.graph, k, provErrs[k].graphError))
    && (forall k :: k in provErrs && provErrs[k].FromBuild? ==>
          k in w.graph && w.graph[k].eager && RightlyFailed(w, log, k, provErrs[k].failure))
  }

  /** The eager ones among the first n declarations are built, or have an error. */
  predicate EagerDone(defs: seq<Provider>, n: nat, w: Wiring, errs: set<RefKey>, s: State)
    requires n <= |defs|
  {
    forall k :: k in w.graph && w.graph[k].eager && Declared(defs, n, k) ==> k in errs || IsReady(s, k)
  }

  /**
   * What New keeps while it builds the eager ones among the first n declarations;
   * log holds the calls of factories so far.
   */
  ghost predicate Wired(
    defs: seq<Provider>, n: nat, w: Wiring, provErrs: map<RefKey, StoredError>, s: State, topo: seq<RefKey>, log: seq<Call>)
    requires n <= |defs|
  {
    && w.errs == provErrs.Keys && TopologicalOrder(w.graph, w.errs, topo) && Inv(w, s) && Quiet(s) && Traced(w, s, log)
    && ErrorsOnRecord(defs, w, provErrs, log) && EagerDone(defs, n, w, w.errs, s)
    && (forall x :: IsReady(s, x) ==> Needed(w.graph, x))
  }

  lemma RightlyFailedStill(w: Wiring, w': Wiring, log: seq<Call>, more: seq<Call>, k: RefKey, e: Failure)
    requires RightlyFailed(w, log, k, e) && w'.graph == w.graph && w'.envFails == w.envFails && w.errs <= w'.errs
    ensures RightlyFailed(w', log + more, k, e)
  {
    var t: nat :| Explained(w, log, t, k, e);
    var path :| LeadsTo(w, log, t, path, k, e);
    assert LeadsTo(w', log, t, path, k, e);
    ExplainedMore(w', log, more, t, k, e);
  }

  lemma ErrorsStayOnRecord(
    defs: seq<Provider>, w: Wiring, w': Wiring, provErrs: map<RefKey, StoredError>, log: seq<Call>, more: seq<Call>)
    requires ErrorsOnRecord(defs, w, provErrs, log)
    requires w'.graph == w.graph && w'.envFails == w.envFails && w.errs <= w'.errs
    ensures ErrorsOnRecord(defs, w', provErrs, log + more)
  {
    forall k | k in provErrs && provErrs[k].FromBuild? ensures RightlyFailed(w', log + more, k, provErrs[k].failure) {
      RightlyFailedStill(w, w', log, more, k, provErrs[k].failure);
    }
  }

  lemma OneMoreDone(defs: seq<Provider>, n: nat, w: Wiring, errs: set<RefKey>, errs': set<RefKey>, s: State, s': State)
    requires n < |defs| && EagerDone(defs, n, w, errs, s) && errs <= errs' && KeepsReady(s, s')
    requires defs[n].key in w.graph && w.graph[defs[n].key].eager ==> defs[n].key in errs' || IsReady(s', defs[n].key)
    ensures EagerDone(defs, n + 1, w, errs', s')
  {
    forall k | k in w.graph && w.graph[k].eager && Declared(defs, n + 1, k) ensures k in errs' || IsReady(s', k) {
      assert k != defs[n].key ==> Declared(defs, n, k);
    }
  }

  /** The n-th declaration is dealt with: nothing to build. */
  lemma NoEager(
    defs: seq<Provider>, n: nat, w: Wiring, provErrs: map<RefKey, StoredError>, s: State, topo: seq<RefKey>, log: seq<Call>)
    requires n < |defs| && Wired(defs, n, w, provErrs, s, topo, log) && defs[n].key in w.graph
    requires !w.graph[defs[n].key].eager || defs[n].key in provErrs
    ensures Wired(defs, n + 1, w, provErrs, s, topo, log)
  {
    OneMoreDone(defs, n, w, w.errs, w.errs, s, s);
  }

  /** What is resolved for an eager provider is needed. */
  lemma StillNeeded(w: Wiring, s: State, s': State, k: RefKey)
    requires k in w.graph && w.graph[k].eager && ReadyFor(w, s, s', k)
    requires forall x :: IsReady(s, x) ==> Needed(w.graph, x)
    ensures forall x :: IsReady(s', x) ==> Needed(w.graph, x)
  {
  }

  /** Or built. */
  lemma EagerBuilt(
    defs: seq<Provider>, n: nat, w: Wiring, provErrs: map<RefKey, StoredError>, s: State, s': State, topo: seq<RefKey>,
    log: seq<Call>, more: seq<Call>)
    requires n < |defs| && Wired(defs, n, w, provErrs, s, topo, log) && Inv(w, s') && Quiet(s') && KeepsReady(s, s')
    requires Traced(w, s', log + more) && ReadyFor(w, s, s', defs[n].key)
    requires defs[n].key in w.graph && w.graph[defs[n].key].eager && IsReady(s', defs[n].key)
    ensures Wired(defs, n + 1, w, provErrs, s', topo, log + more)
  {
    StillNeeded(w, s, s', defs[n].key);
    OneMoreDone(defs, n, w, w.errs, w.errs, s, s');
    ErrorsStayOnRecord(defs, w, w, provErrs, log, more);
  }

  lemma OtherErrors(w: Wiring, s: State, log: seq<Call>, errs: set<RefKey>)
    requires Traced(w, s, log)
    ensures Traced(w.(errs := errs), s, log)
  {
    forall i | 0 <= i < |log| ensures CallOk(w.(errs := errs), s, log[i]) {
      assert CallOk(w, s, log[i]);
    }
  }

  /** Or on record as failed. */
  lemma EagerFailed(
    defs: seq<Provider>, n: nat, w: Wiring, provErrs: map<RefKey, StoredError>, s: State, s': State, topo: seq<RefKey>,
    log: seq<Call>, more: seq<Call>, e: Failure)
    requires n < |defs| && Wired(defs, n, w, provErrs, s, topo, log) && Inv(w, s') && Quiet(s') && KeepsReady(s, s')
    requires Traced(w, s', log + more) && ReadyFor(w, s, s', defs[n].key)
    requires defs[n].key in w.graph && w.graph[defs[n].key].eager
    requires defs[n].key !in provErrs && defs[n].key !in s'.slots && RightlyFailed(w, log + more, defs[n].key, e)
    ensures var provErrs' := provErrs[defs[n].key := FromBuild(e)];
            Wired(defs, n + 1, w.(errs := provErrs'.Keys), provErrs', s', topo, log + more)
  {
    var k := defs[n].key;
    var provErrs' := provErrs[k := FromBuild(e)];
    var w' := w.(errs := provErrs'.Keys);
    assert provErrs'.Keys == w.errs + {k};
    RecordingFailureIsSafe(w, topo, s', k);
    StillNeeded(w, s, s', k);
    OtherErrors(w, s', log + more, provErrs'.Keys);
    OneMoreDone(defs, n, w, w.errs, provErrs'.Keys, s, s');
    ErrorsStayOnRecord(defs, w, w', provErrs, log, more);
    RightlyFailedStill(w, w', log + more, [], k, e);
    assert log + more + [] == log + more;
  }

  /**
   * One turn of the loop over the declarations: a provider that is not eager or
   * has an error already is left alone, any other is resolved, and what that
   * returned is recorded if it is an error.
   */
  method BuildEager(
    defs: seq<Provider>, n: nat, w: Wiring, provErrs: map<RefKey, StoredError>, s: State, ghost topo: seq<RefKey>,
    ghost log: seq<Call>, choices: nat -> Choice)
    returns (provErrs': map<RefKey, StoredError>, s': State, ghost log': seq<Call>)
    requires n < |defs| && defs[n].key in w.graph && Wired(defs, n, w, provErrs, s, topo, log)
    ensures Wired(defs, n + 1, w.(errs := provErrs'.Keys), provErrs', s', topo, log')
    ensures !w.graph[defs[n].key].eager || defs[n].key in provErrs ==> provErrs' == provErrs && s' == s
    ensures w.graph[defs[n].key].eager && defs[n].key !in provErrs ==>
              exists schedule, res ::
                && IsLoneCall(w, s, defs[n].key, schedule, s', res)
                && provErrs' == if res.Fail? then provErrs[defs[n].key := FromBuild(res.e)] else provErrs
  {
    var k := defs[n].key;
    if !w.graph[k].eager || k in provErrs {
      NoEager(defs, n, w, provErrs, s, topo, log);
      return provErrs, s, log;
    }
    var res;
    ghost var schedule;
    s', res, schedule := ResolveAlone(w, topo, s, k, choices);
    ghost var more := Calls(w, Joined(s, k), schedule);
    LoneCallTraced(w, s, log, k, schedule, s', res);
    log' := log + more;
    match res
    case Val(_) =>
      EagerBuilt(defs, n, w, provErrs, s, s', topo, log, more);
      provErrs' := provErrs;
    case Fail(e) =>
      assert Explained(w, log', |s.threads|, k, e);
      EagerFailed(defs, n, w, provErrs, s, s', topo, log, more, e);
      provErrs' := provErrs[k := FromBuild(e)];
  }

  /**
   * The container as New leaves it: each eager provider is resolved or has an
   * error on record, no provider is both, and what resolvers and Close rely on
   * holds of the wiring. Nothing is resolved that no eager provider needs, every
   * value is its factory's, and every error on record is what a build came to.
   */
  method New(defs: seq<Provider>, envFails: bool, choices: nat -> (nat -> Choice))
    returns (w: Wiring, provErrs: map<RefKey, StoredError>, s: State, ghost topo: seq<RefKey>, ghost log: seq<Call>)
    ensures FirstDeclarations(defs, |defs|, w.graph) && w.envFails == envFails && Wired(defs, |defs|, w, provErrs, s, topo, log)
    ensures forall k :: k in w.graph && w.graph[k].eager ==> (k in provErrs <==> !IsReady(s, k))
    ensures forall k :: IsReady(s, k) ==> Needed(w.graph, k) && ValuesOf(log, k) == [s.slots[k].v]
    ensures forall k :: k in provErrs && provErrs[k].FromBuild? ==> RightlyFailed(w, log, k, provErrs[k].failure)
    ensures CloseOrder.Resolvable(w.graph, w.errs, topo, ReadyKeys(s))
  {
    var provDefs, errs;
    provDefs, errs, topo := Wire(defs);
    provErrs := map k | k in errs :: FromGraph(errs[k]);
    w := Wiring(provDefs, provErrs.Keys, envFails);
    s, log := Init([]), [];
    StartsWired(defs, w, errs, topo);
    for i := 0 to |defs|
      invariant w.graph == provDefs && w.envFails == envFails && Wired(defs, i, w, provErrs, s, topo, log)
    {
      assert Declared(defs, |defs|, defs[i].key);
      DefinedIsDeclared(defs, provDefs, defs[i].key);
      provErrs, s, log := BuildEager(defs, i, w, provErrs, s, topo, log, choices(i));
      w := w.(errs := provErrs.Keys);
    }
    EagerIsEither(defs, w, provErrs, s, topo, log);
    ResolvedAreClosable(w, topo, s);
    forall k | IsReady(s, k) ensures ValuesOf(log, k) == [s.slots[k].v] {
      assert SlotOk(s, log, k);
    }
  }

  lemma StartsWired(defs: seq<Provider>, w: Wiring, errs: map<RefKey, GraphError>, topo: seq<RefKey>)
    requires TopologicalOrder(w.graph, errs.Keys, topo) && w.errs == errs.Keys
    requires forall k :: k in errs ==> Justified(defs, w.graph, k, errs[k])
    ensures Wired(defs, 0, w, map k | k in errs :: FromGraph(errs[k]), Init([]), topo, [])
  {
    InitInv(w, []);
    assert (map k | k in errs :: FromGraph(errs[k])).Keys == errs.Keys;
  }

  lemma EagerIsEither(
    defs: seq<Provider>, w: Wiring, provErrs: map<RefKey, StoredError>, s: State, topo: seq<RefKey>, log: seq<Call>)
    requires FirstDeclarations(defs, |defs|, w.graph) && Wired(defs, |defs|, w, provErrs, s, topo, log)
    ensures forall k :: k in w.graph && w.graph[k].eager ==> (k in provErrs <==> !IsReady(s, k))
  {
    forall k | k in w.graph && w.graph[k].eager ensures k in provErrs <==> !IsReady(s, k) {
      if IsReady(s, k) {
        assert SlotInv(w, s, k);
      }
    }
  }
}
