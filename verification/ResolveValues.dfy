/**
 * Where the results of resolveProvider come from: values are what the factory
 * returned, given the values of its dependencies; errors are the caller's own.
 */
module ResolveValues {
  import opened Basics
  import opened ProviderGraph
  import opened Resolve

  /** One call of a factory: who made it, for which key, with which values, and what it returned. */
  datatype Call = Call(thread: nat, key: RefKey, args: seq<Option<int>>, result: Choice)

  /** Thread t has the values of all dependencies and calls the factory now. */
  predicate CallsFactory(w: Wiring, s: State, t: nat) {
    && t < |s.threads| && s.threads[t].mode.Run? && s.threads[t].frames != []
    && var fr := Top(s.threads[t]);
       fr.key in w.graph && |fr.args| == |w.graph[fr.key].deps| && !(fr.args == [] && w.envFails)
  }

  function CallNow(w: Wiring, s: State, t: nat, c: Choice): seq<Call> {
    if CallsFactory(w, s, t) then [Call(t, Top(s.threads[t]).key, Top(s.threads[t]).args, c)] else []
  }

  /** One event of the schedule, taken or passed over. */
  function Next(w: Wiring, s: State, e: Event): State {
    if Enabled(s, e.thread) then Step(w, s, e.thread, e.choice) else s
  }

  /** All calls of factories in a run, in order. */
  function Calls(w: Wiring, s: State, schedule: seq<Event>): seq<Call>
    decreases |schedule|
  {
    if schedule == [] then []
    else
      var e := schedule[0];
      CallNow(w, s, e.thread, e.choice)
      + Calls(w, Next(w, s, e), schedule[1..])
  }

  /** What the factory of k has returned, errors aside. */
  function ValuesOf(log: seq<Call>, k: RefKey): seq<int> {
    if log == [] then []
    else
      var last := log[|log| - 1];
      ValuesOf(log[..|log| - 1], k) + if last.key == k && last.result.Made? then [last.result.v] else []
  }

  // ------------------------------------------------------------------- values

  /** A value that is made and not yet stored is its factory's only one. */
  predicate StoreOk(log: seq<Call>, th: Thread) {
    th.mode.Store? && th.mode.res.Val? && th.frames != [] ==> ValuesOf(log, Top(th).key) == [th.mode.res.v]
  }

  /** Its builder is about to store the value of build e. */
  predicate Storing(s: State, e: nat) {
    && e < |s.entries| && s.entries[e].owner < |s.threads|
    && var th := s.threads[s.entries[e].owner];
       th.mode.Store? && th.mode.res.Val? && th.frames != [] && Top(th).entry == e
  }

  /** What is cached for k is the only value its factory has returned; without a value on its way there is none. */
  predicate SlotOk(s: State, log: seq<Call>, k: RefKey) {
    if k !in s.slots then ValuesOf(log, k) == []
    else match s.slots[k]
      case Ready(v) => ValuesOf(log, k) == [v]
      case Building(e) => Storing(s, e) || ValuesOf(log, k) == []
  }

  /** The factory was given what its dependencies resolved to, and only one that is optional does without. */
  predicate CallOk(w: Wiring, s: State, call: Call) {
    && call.key in w.graph && |call.args| == |w.graph[call.key].deps|
    && (w.graph[call.key].optional || AllGiven(call.args))
    && forall i :: 0 <= i < |call.args| ==> IsArg(w, s, w.graph[call.key].deps[i], call.args[i])
  }

  // ------------------------------------------------------------------- errors

  /** Error e arises at k itself, in a call made by thread t. */
  ghost predicate ArisesAt(w: Wiring, log: seq<Call>, t: nat, k: RefKey, e: Failure) {
    match e
    case GraphFailure(x) => x == k && k in w.errs
    case NotProvided(x) => x == k && k !in w.graph
    case EnvFailure(x) => x == k && k in w.graph && w.envFails
    case BuildFailure(x) => exists i :: 0 <= i < |log| && log[i].thread == t && log[i].key == k && log[i].result == Broke(x)
  }

  /** k cannot do without d: who is optional can, if nobody declares d. */
  predicate Needs(graph: Defs, k: RefKey, d: RefKey) {
    k in graph && d in graph[k].deps && (d in graph || !graph[k].optional)
  }

  /** Each key on the path needs the next; the last may be undeclared. */
  predicate DependencyPath(graph: Defs, path: seq<RefKey>) {
    forall i :: 0 <= i < |path| - 1 ==> Needs(graph, path[i], path[i + 1])
  }

  /** path leads from k along dependencies to where e arises. */
  ghost predicate LeadsTo(w: Wiring, log: seq<Call>, t: nat, path: seq<RefKey>, k: RefKey, e: Failure) {
    && path != [] && path[0] == k && DependencyPath(w.graph, path)
    && ArisesAt(w, log, t, path[|path| - 1], e)
  }

  ghost predicate Explained(w: Wiring, log: seq<Call>, t: nat, k: RefKey, e: Failure) {
    exists path :: LeadsTo(w, log, t, path, k, e)
  }

  /** What thread t may be given for k. */
  ghost predicate ResultOk(w: Wiring, log: seq<Call>, t: nat, k: RefKey, res: Res) {
    if k in w.errs then res == Fail(GraphFailure(k))
    else if k !in w.graph then res == Fail(NotProvided(k))
    else res.Fail? ==> Explained(w, log, t, k, res.e)
  }

  ghost predicate ModeOk(w: Wiring, log: seq<Call>, t: nat, th: Thread) {
    match th.mode
    case Want(_) => true
    case Wait(_, _) => true
    case Run => true
    case Store(res) => th.frames != [] ==> ResultOk(w, log, t, Top(th).key, res)
    case Close(res) => th.frames != [] ==> ResultOk(w, log, t, Top(th).key, res)
    case Deliver(k, res) => ResultOk(w, log, t, k, res)
    case Done(k, res) => ResultOk(w, log, t, k, res)
  }

  // ------------------------------------------------------------ every run

  /** The values are what the calls in log have made of them. */
  ghost predicate Traced(w: Wiring, s: State, log: seq<Call>) {
    && (forall k :: SlotOk(s, log, k))
    && (forall t :: 0 <= t < |s.threads| ==> StoreOk(log, s.threads[t]))
    && (forall i :: 0 <= i < |log| ==> CallOk(w, s, log[i]))
  }

  lemma ValuesOfMore(log: seq<Call>, call: Call, k: RefKey)
    ensures ValuesOf(log + [call], k) == ValuesOf(log, k) + if call.key == k && call.result.Made? then [call.result.v] else []
  {
    assert (log + [call])[..|log|] == log;
  }

  /** At most one call is added, for the key on top of the thread that moves. */
  lemma LogGrows(w: Wiring, s: State, log: seq<Call>, t: nat, c: Choice, k: RefKey)
    ensures var log' := log + CallNow(w, s, t, c);
            ValuesOf(log', k) == if CallsFactory(w, s, t) && k == Top(s.threads[t]).key && c.Made?
                                 then ValuesOf(log, k) + [c.v] else ValuesOf(log, k)
  {
    if CallsFactory(w, s, t) {
      ValuesOfMore(log, CallNow(w, s, t, c)[0], k);
    } else {
      assert log + [] == log;
    }
  }

  /** A factory that is called now has not returned a value before. */
  lemma NoValueYet(w: Wiring, s: State, log: seq<Call>, t: nat)
    requires Inv(w, s) && Traced(w, s, log) && CallsFactory(w, s, t)
    ensures ValuesOf(log, Top(s.threads[t]).key) == []
  {
    assert FrameInv(w, s, t, |s.threads[t].frames| - 1);
    assert SlotOk(s, log, Top(s.threads[t]).key);
  }

  lemma OwnStore(w: Wiring, s: State, log: seq<Call>, t: nat, c: Choice)
    requires Inv(w, s) && Traced(w, s, log) && Enabled(s, t)
    ensures StoreOk(log + CallNow(w, s, t, c), Step(w, s, t, c).threads[t])
  {
    var th := s.threads[t];
    assert ThreadInv(w, s, t);
    if th.mode.Run? {
      assert FrameInv(w, s, t, |th.frames| - 1);
      LogGrows(w, s, log, t, c, Top(th).key);
      if CallsFactory(w, s, t) {
        NoValueYet(w, s, log, t);
      }
    } else {
      match th.mode
      case Want(_) =>
      case Wait(_, _) =>
      case Store(_) =>
      case Close(_) =>
      case Deliver(_, _) =>
    }
  }

  lemma OtherStore(w: Wiring, s: State, log: seq<Call>, t: nat, c: Choice, u: nat)
    requires Inv(w, s) && Traced(w, s, log) && Enabled(s, t) && u < |s.threads| && u != t
    ensures StoreOk(log + CallNow(w, s, t, c), s.threads[u])
  {
    var th := s.threads[u];
    assert StoreOk(log, th);
    if th.mode.Store? && th.frames != [] {
      LogGrows(w, s, log, t, c, Top(th).key);
      if CallsFactory(w, s, t) && Top(th).key == Top(s.threads[t]).key {
        BuildsAreUnique(w, s, u, |th.frames| - 1, t, |s.threads[t].frames| - 1);
      }
    }
  }

  lemma StepStores(w: Wiring, s: State, log: seq<Call>, t: nat, c: Choice, u: nat)
    requires Inv(w, s) && Traced(w, s, log) && Enabled(s, t) && u < |s.threads|
    ensures StoreOk(log + CallNow(w, s, t, c), Step(w, s, t, c).threads[u])
  {
    StepMovesOne(w, s, t, c);
    if u == t {
      OwnStore(w, s, log, t, c);
    } else {
      OtherStore(w, s, log, t, c, u);
    }
  }

  /** Another thread's value stays on its way. */
  lemma StoringStays(w: Wiring, s: State, t: nat, c: Choice, e: nat)
    requires Inv(w, s) && Enabled(s, t) && Storing(s, e) && s.entries[e].owner != t
    ensures Storing(Step(w, s, t, c), e)
  {
    StepMovesOne(w, s, t, c);
    var owner := s.entries[e].owner;
    assert Step(w, s, t, c).threads[owner] == s.threads[owner];
  }

  /** While no factory is called and nothing is stored. */
  lemma PassingSlotOk(w: Wiring, s: State, log: seq<Call>, t: nat, c: Choice, k: RefKey)
    requires Inv(w, s) && Traced(w, s, log) && Enabled(s, t) && !s.threads[t].mode.Run? && !s.threads[t].mode.Store?
    ensures SlotOk(Step(w, s, t, c), log, k)
  {
    assert SlotOk(s, log, k);
    if k in s.slots && s.slots[k].Building? && Storing(s, s.slots[k].entry) {
      StoringStays(w, s, t, c, s.slots[k].entry);
    }
    match s.threads[t].mode
    case Want(_) =>
    case Wait(_, _) =>
    case Close(_) =>
    case Deliver(_, _) =>
  }

  lemma RunningSlotOk(w: Wiring, s: State, log: seq<Call>, t: nat, c: Choice, k: RefKey)
    requires Inv(w, s) && Traced(w, s, log) && Enabled(s, t) && s.threads[t].mode.Run?
    ensures SlotOk(Step(w, s, t, c), log + CallNow(w, s, t, c), k)
  {
    var fr := Top(s.threads[t]);
    assert SlotOk(s, log, k) && FrameInv(w, s, t, |s.threads[t].frames| - 1);
    LogGrows(w, s, log, t, c, k);
    if k == fr.key && CallsFactory(w, s, t) {
      NoValueYet(w, s, log, t);
      assert c.Made? ==> Storing(Step(w, s, t, c), fr.entry);
    } else if k in s.slots && s.slots[k].Building? && Storing(s, s.slots[k].entry) {
      StoringStays(w, s, t, c, s.slots[k].entry);
    }
  }

  lemma StoredSlotOk(w: Wiring, s: State, log: seq<Call>, t: nat, c: Choice, k: RefKey)
    requires Inv(w, s) && Traced(w, s, log) && Enabled(s, t) && s.threads[t].mode.Store?
    ensures SlotOk(Step(w, s, t, c), log, k)
  {
    var fr := Top(s.threads[t]);
    assert SlotOk(s, log, k) && StoreOk(log, s.threads[t]) && FrameInv(w, s, t, |s.threads[t].frames| - 1);
    if k != fr.key && k in s.slots && s.slots[k].Building? && Storing(s, s.slots[k].entry) {
      assert SlotInv(w, s, k);
      StoringStays(w, s, t, c, s.slots[k].entry);
    }
  }

  lemma StepSlotOk(w: Wiring, s: State, log: seq<Call>, t: nat, c: Choice, k: RefKey)
    requires Inv(w, s) && Traced(w, s, log) && Enabled(s, t)
    ensures SlotOk(Step(w, s, t, c), log + CallNow(w, s, t, c), k)
  {
    if s.threads[t].mode.Run? {
      RunningSlotOk(w, s, log, t, c, k);
    } else {
      assert log + CallNow(w, s, t, c) == log;
      if s.threads[t].mode.Store? {
        StoredSlotOk(w, s, log, t, c, k);
      } else {
        PassingSlotOk(w, s, log, t, c, k);
      }
    }
  }

  lemma StepCalls(w: Wiring, s: State, log: seq<Call>, t: nat, c: Choice, i: nat)
    requires Inv(w, s) && Traced(w, s, log) && Enabled(s, t) && i < |log + CallNow(w, s, t, c)|
    ensures CallOk(w, Step(w, s, t, c), (log + CallNow(w, s, t, c))[i])
  {
    if i < |log| {
      assert CallOk(w, s, log[i]);
      StepKeepsArgs(w, s, t, c, log[i].key, log[i].args);
    } else {
      var fr := Top(s.threads[t]);
      assert FrameInv(w, s, t, |s.threads[t].frames| - 1);
      StepKeepsArgs(w, s, t, c, fr.key, fr.args);
    }
  }

  lemma ExplainedMore(w: Wiring, log: seq<Call>, more: seq<Call>, t: nat, k: RefKey, e: Failure)
    requires Explained(w, log, t, k, e)
    ensures Explained(w, log + more, t, k, e)
  {
    var path :| LeadsTo(w, log, t, path, k, e);
    if e.BuildFailure? {
      var i :| 0 <= i < |log| && log[i].thread == t && log[i].key == path[|path| - 1] && log[i].result == Broke(e.e);
      assert (log + more)[i] == log[i];
    }
    assert LeadsTo(w, log + more, t, path, k, e);
  }

  lemma ResultOkMore(w: Wiring, log: seq<Call>, more: seq<Call>, t: nat, k: RefKey, res: Res)
    requires ResultOk(w, log, t, k, res)
    ensures ResultOk(w, log + more, t, k, res)
  {
    if k !in w.errs && k in w.graph && res.Fail? {
      ExplainedMore(w, log, more, t, k, res.e);
    }
  }

  lemma ModeOkMore(w: Wiring, log: seq<Call>, more: seq<Call>, t: nat, th: Thread)
    requires ModeOk(w, log, t, th)
    ensures ModeOk(w, log + more, t, th)
  {
    match th.mode
    case Want(_) =>
    case Wait(_, _) =>
    case Run =>
    case Store(res) => if th.frames != [] { ResultOkMore(w, log, more, t, Top(th).key, res); }
    case Close(res) => if th.frames != [] { ResultOkMore(w, log, more, t, Top(th).key, res); }
    case Deliver(k, res) => ResultOkMore(w, log, more, t, k, res);
    case Done(k, res) => ResultOkMore(w, log, more, t, k, res);
  }

  lemma ArisesHere(w: Wiring, log: seq<Call>, t: nat, k: RefKey, e: Failure)
    requires ArisesAt(w, log, t, k, e)
    ensures Explained(w, log, t, k, e)
  {
    assert LeadsTo(w, log, t, [k], k, e);
  }

  /** The error of a dependency explains that of its dependent. */
  lemma ArisesBelow(w: Wiring, log: seq<Call>, t: nat, k: RefKey, d: RefKey, e: Failure)
    requires Needs(w.graph, k, d) && Explained(w, log, t, d, e)
    ensures Explained(w, log, t, k, e)
  {
    var path :| LeadsTo(w, log, t, path, d, e);
    var longer := [k] + path;
    forall i | 0 <= i < |longer| - 1 ensures Needs(w.graph, longer[i], longer[i + 1]) {
      assert i > 0 ==> Needs(w.graph, path[i - 1], path[i]);
    }
    assert LeadsTo(w, log, t, longer, k, e);
  }

  /** A build ends: with what its factory returned, without an environment, or with the error of a dependency. */
  lemma StepBuildResult(w: Wiring, s: State, log: seq<Call>, t: nat, c: Choice)
    requires Inv(w, s) && Enabled(s, t) && s.threads[t].mode.Run?
    ensures ModeOk(w, log + CallNow(w, s, t, c), t, Step(w, s, t, c).threads[t])
  {
    var th, log' := s.threads[t], log + CallNow(w, s, t, c);
    var fr := Top(th);
    assert FrameInv(w, s, t, |th.frames| - 1);
    if CallsFactory(w, s, t) {
      if c.Broke? {
        assert log'[|log|] == Call(t, fr.key, fr.args, c);
        ArisesHere(w, log', t, fr.key, BuildFailure(c.e));
      }
    } else if fr.args == [] && w.envFails {
      ArisesHere(w, log', t, fr.key, EnvFailure(fr.key));
    }
  }

  lemma StepDelivers(w: Wiring, s: State, log: seq<Call>, t: nat, c: Choice)
    requires Inv(w, s) && Enabled(s, t) && ModeOk(w, log, t, s.threads[t]) && s.threads[t].mode.Deliver?
    ensures ModeOk(w, log, t, Step(w, s, t, c).threads[t])
  {
    var th := s.threads[t];
    assert ThreadInv(w, s, t);
    if th.frames != [] && th.mode.res.Fail? {
      var k, d, e := Top(th).key, th.mode.key, th.mode.res.e;
      assert FrameInv(w, s, t, |th.frames| - 1);
      if d in w.errs || d !in w.graph {
        ArisesHere(w, log, t, d, e);
      }
      ArisesBelow(w, log, t, k, d, e);
    }
  }

  lemma StepModes(w: Wiring, s: State, log: seq<Call>, t: nat, c: Choice, u: nat)
    requires Inv(w, s) && Enabled(s, t) && u < |s.threads| && ModeOk(w, log, u, s.threads[u])
    ensures ModeOk(w, log + CallNow(w, s, t, c), u, Step(w, s, t, c).threads[u])
  {
    var th := s.threads[u];
    StepMovesOne(w, s, t, c);
    assert ThreadInv(w, s, u);
    ModeOkMore(w, log, CallNow(w, s, t, c), u, th);
    if u == t {
      if th.mode.Run? {
        StepBuildResult(w, s, log, t, c);
      } else {
        assert log + CallNow(w, s, t, c) == log;
        if th.mode.Deliver? {
          StepDelivers(w, s, log, t, c);
        } else {
          StepLooks(w, s, log, t, c);
        }
      }
    }
  }

  /** A thread that looks, waits, stores or closes passes on what it has, or what it finds. */
  lemma StepLooks(w: Wiring, s: State, log: seq<Call>, t: nat, c: Choice)
    requires Inv(w, s) && Enabled(s, t) && ModeOk(w, log, t, s.threads[t])
    requires !s.threads[t].mode.Run? && !s.threads[t].mode.Deliver?
    ensures ModeOk(w, log, t, Step(w, s, t, c).threads[t])
  {
    assert ThreadInv(w, s, t);
    match s.threads[t].mode
    case Want(_) =>
    case Wait(_, _) =>
    case Store(_) =>
    case Close(_) =>
  }

  lemma StepTraced(w: Wiring, s: State, log: seq<Call>, t: nat, c: Choice)
    requires Inv(w, s) && Traced(w, s, log) && Enabled(s, t)
    ensures Traced(w, Step(w, s, t, c), log + CallNow(w, s, t, c))
  {
    var s', log' := Step(w, s, t, c), log + CallNow(w, s, t, c);
    StepMovesOne(w, s, t, c);
    forall k ensures SlotOk(s', log', k) {
      StepSlotOk(w, s, log, t, c, k);
    }
    forall u | 0 <= u < |s'.threads| ensures StoreOk(log', s'.threads[u]) {
      StepStores(w, s, log, t, c, u);
    }
    forall i | 0 <= i < |log'| ensures CallOk(w, s', log'[i]) {
      StepCalls(w, s, log, t, c, i);
    }
  }

  lemma NextTraced(w: Wiring, s: State, log: seq<Call>, e: Event)
    requires Inv(w, s) && Traced(w, s, log)
    ensures Inv(w, Next(w, s, e)) && Traced(w, Next(w, s, e), log + CallNow(w, s, e.thread, e.choice))
  {
    if Enabled(s, e.thread) {
      StepInv(w, s, e.thread, e.choice);
      StepTraced(w, s, log, e.thread, e.choice);
    } else {
      assert log + CallNow(w, s, e.thread, e.choice) == log;
    }
  }

  lemma {:induction false} RunTraced(w: Wiring, s: State, schedule: seq<Event>, log: seq<Call>)
    requires Inv(w, s) && Traced(w, s, log)
    ensures Traced(w, RunAll(w, s, schedule), log + Calls(w, s, schedule))
    decreases |schedule|
  {
    if schedule == [] {
      assert log + [] == log;
    } else {
      var e := schedule[0];
      var now := CallNow(w, s, e.thread, e.choice);
      NextTraced(w, s, log, e);
      RunTraced(w, Next(w, s, e), schedule[1..], log + now);
      PlusAssociates(log, now, Calls(w, Next(w, s, e), schedule[1..]));
    }
  }

  lemma NextModeOk(w: Wiring, s: State, log: seq<Call>, e: Event, u: nat)
    requires Inv(w, s) && u < |s.threads| && ModeOk(w, log, u, s.threads[u])
    ensures Inv(w, Next(w, s, e)) && |Next(w, s, e).threads| == |s.threads|
    ensures ModeOk(w, log + CallNow(w, s, e.thread, e.choice), u, Next(w, s, e).threads[u])
  {
    if Enabled(s, e.thread) {
      StepInv(w, s, e.thread, e.choice);
      StepMovesOne(w, s, e.thread, e.choice);
      StepModes(w, s, log, e.thread, e.choice, u);
    } else {
      assert log + CallNow(w, s, e.thread, e.choice) == log;
    }
  }

  lemma {:induction false} RunModeOk(w: Wiring, s: State, schedule: seq<Event>, log: seq<Call>, u: nat)
    requires Inv(w, s) && u < |s.threads| && ModeOk(w, log, u, s.threads[u])
    ensures |RunAll(w, s, schedule).threads| == |s.threads|
    ensures ModeOk(w, log + Calls(w, s, schedule), u, RunAll(w, s, schedule).threads[u])
    decreases |schedule|
  {
    if schedule == [] {
      assert log + [] == log;
    } else {
      var e := schedule[0];
      var now := CallNow(w, s, e.thread, e.choice);
      NextModeOk(w, s, log, e, u);
      RunModeOk(w, Next(w, s, e), schedule[1..], log + now, u);
      PlusAssociates(log, now, Calls(w, Next(w, s, e), schedule[1..]));
    }
  }

  lemma RunFromInit(w: Wiring, keys: seq<RefKey>, schedule: seq<Event>)
    ensures Inv(w, RunAll(w, Init(keys), schedule))
    ensures Traced(w, RunAll(w, Init(keys), schedule), Calls(w, Init(keys), schedule))
  {
    InitInv(w, keys);
    RunInv(w, Init(keys), schedule);
    RunTraced(w, Init(keys), schedule, []);
    assert [] + Calls(w, Init(keys), schedule) == Calls(w, Init(keys), schedule);
  }

  // -------------------------------------------------------------- what is proved

  /**
   * The value of a resolved provider, for its callers and in the cache, is the
   * one its factory returned: it has returned a value exactly once.
   */
  lemma ValuesAreTheFactorys(w: Wiring, keys: seq<RefKey>, schedule: seq<Event>, t: nat, k: RefKey, v: int)
    requires var s := RunAll(w, Init(keys), schedule); Returned(s, t, k, v) || (k in s.slots && s.slots[k] == Ready(v))
    ensures ValuesOf(Calls(w, Init(keys), schedule), k) == [v]
  {
    RunFromInit(w, keys, schedule);
    var s := RunAll(w, Init(keys), schedule);
    assert SlotOk(s, Calls(w, Init(keys), schedule), k);
    assert Returned(s, t, k, v) ==> ThreadInv(w, s, t);
  }

  /** Every factory is called with the values that its dependencies have resolved to, in their order. */
  lemma FactoriesGetTheirDependencies(w: Wiring, keys: seq<RefKey>, schedule: seq<Event>, n: nat, i: nat)
    requires n < |Calls(w, Init(keys), schedule)|
    requires var call := Calls(w, Init(keys), schedule)[n]; call.key in w.graph ==> i < |w.graph[call.key].deps|
    ensures var call := Calls(w, Init(keys), schedule)[n];
            && call.key in w.graph && |call.args| == |w.graph[call.key].deps|
            && IsArg(w, RunAll(w, Init(keys), schedule), w.graph[call.key].deps[i], call.args[i])
  {
    RunFromInit(w, keys, schedule);
    assert CallOk(w, RunAll(w, Init(keys), schedule), Calls(w, Init(keys), schedule)[n]);
  }

  /**
   * A key with a wiring error gives that error and an undeclared one that it is
   * not provided, and no other key does; any other error arose in the caller's
   * own build of the key or of something it leads to along dependencies.
   */
  lemma ErrorsAreTheCallers(w: Wiring, keys: seq<RefKey>, schedule: seq<Event>, t: nat, k: RefKey, res: Res)
    requires var s := RunAll(w, Init(keys), schedule); t < |s.threads| && s.threads[t].mode == Done(k, res)
    ensures res == Fail(GraphFailure(k)) <==> k in w.errs
    ensures res == Fail(NotProvided(k)) <==> k !in w.errs && k !in w.graph
    ensures res.Fail? ==> Explained(w, Calls(w, Init(keys), schedule), t, k, res.e)
  {
    RunFromInit(w, keys, schedule);
    var s, log := RunAll(w, Init(keys), schedule), Calls(w, Init(keys), schedule);
    RunKeepsThreads(w, Init(keys), schedule);
    RunModeOk(w, Init(keys), schedule, [], t);
    assert [] + log == log && ThreadInv(w, s, t);
    if res.Fail? && (k in w.errs || k !in w.graph) {
      ArisesHere(w, log, t, k, res.e);
    }
  }
}
