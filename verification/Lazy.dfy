/**
 * container/lazy.go: build-once cells as a state machine. Every shared access
 * that another goroutine can observe is an atomic step, threads are scheduled
 * in any order, and each thread makes one call of get.
 */
module Lazy {
  import opened Basics

  /** How a builder can end: returning, failing, panicking or through runtime.Goexit. */
  datatype Exit = Returns(v: int) | Fails(e: int) | Panics(p: int) | Exits

  datatype Res = Value(v: int) | Error(e: int) | BuildPanicError(p: int)

  /** One build execution; leader is the thread that runs it. */
  datatype Flight = Flight(leader: nat, closed: bool, settled: bool, result: Res)

  /** leaderBuild: running fn, then the deferred cleanup statement by statement. */
  datatype Stage =
    | Build
    | WantCleanup(exit: Exit)
    | SetVal(v: int)
    | SetDone(v: int)
    | SetReady(v: int)
    | Settle(exit: Exit)
    | Unlock(exit: Exit)
    | CloseDone(exit: Exit)

  /**
   * Where a call of get is. seen counts the flights that were over when the
   * call last went for the lock.
   */
  datatype PC =
    | Start
    | FastRead
    | WantLock(seen: nat)
    | Locked(seen: nat)
    | Parked(flight: nat)
    | Woken(flight: nat)
    | Leading(flight: nat, stage: Stage)
    | Returned(result: Res)
    | Gone

  /** The cell, its flights so far, and the threads; built counts successful builds. */
  datatype State = State(
    val: int, done: bool, ready: bool, cur: Option<nat>, mu: Option<nat>,
    flights: seq<Flight>, built: nat, threads: seq<PC>)

  function Init(n: nat): State {
    State(0, false, false, None, None, [], 0, seq(n, _ => Start))
  }

  predicate OnFlight(pc: PC) {
    pc.Parked? || pc.Woken? || pc.Leading?
  }

  /** Finished threads never move; a lock or an unclosed flight blocks. */
  predicate Enabled(s: State, t: nat) {
    && t < |s.threads|
    && (OnFlight(s.threads[t]) ==> s.threads[t].flight < |s.flights|)
    && match s.threads[t]
       case WantLock(_) => s.mu.None?
       case Leading(_, WantCleanup(_)) => s.mu.None?
       case Parked(f) => s.flights[f].closed
       case Returned(_) => false
       case Gone => false
       case _ => true
  }

  function ResultOf(exit: Exit): Res {
    match exit
    case Returns(v) => Value(v)
    case Fails(e) => Error(e)
    case Panics(p) => BuildPanicError(p)
    case Exits => Value(0)
  }

  /** The positions after thread t went to pc. */
  function Go(s: State, t: nat, pc: PC): seq<PC>
    requires t < |s.threads|
  {
    s.threads[t := pc]
  }

  /** One step of thread t; exit is how its builder ends, where that is the step. */
  function Step(s: State, t: nat, exit: Exit): State
    requires Enabled(s, t)
  {
    match s.threads[t]
    case Start => s.(threads := Go(s, t, if s.ready then FastRead else WantLock(0)))
    case FastRead => s.(threads := Go(s, t, Returned(Value(s.val))))
    case WantLock(seen) => s.(mu := Some(t), threads := Go(s, t, Locked(seen)))
    case Locked(seen) =>
      if s.done then s.(mu := None, threads := Go(s, t, Returned(Value(s.val))))
      else if s.cur.Some? then s.(mu := None, threads := Go(s, t, Parked(s.cur.value)))
      else
        s.(mu := None, cur := Some(|s.flights|),
           flights := s.flights + [Flight(t, false, false, Value(0))],
           threads := Go(s, t, Leading(|s.flights|, Build)))
    case Parked(f) => s.(threads := Go(s, t, Woken(f)))
    case Woken(f) =>
      s.(threads := Go(s, t, if s.flights[f].settled then Returned(s.flights[f].result) else WantLock(f + 1)))
    case Leading(f, stage) => LeaderStep(s, t, f, stage, exit)
  }

  function LeaderStep(s: State, t: nat, f: nat, stage: Stage, exit: Exit): State
    requires t < |s.threads| && f < |s.flights|
  {
    match stage
    case Build =>
      s.(built := s.built + if exit.Returns? then 1 else 0,
         threads := Go(s, t, Leading(f, WantCleanup(exit))))
    case WantCleanup(e) =>
      s.(mu := Some(t), threads := Go(s, t, Leading(f, if e.Returns? then SetVal(e.v) else Settle(e))))
    case SetVal(v) => s.(val := v, threads := Go(s, t, Leading(f, SetDone(v))))
    case SetDone(v) => s.(done := true, threads := Go(s, t, Leading(f, SetReady(v))))
    case SetReady(v) => s.(ready := true, threads := Go(s, t, Leading(f, Settle(Returns(v)))))
    case Settle(e) =>
      s.(cur := None,
         flights := s.flights[f := Flight(s.flights[f].leader, s.flights[f].closed, !e.Exits?, ResultOf(e))],
         threads := Go(s, t, Leading(f, Unlock(e))))
    case Unlock(e) => s.(mu := None, threads := Go(s, t, Leading(f, CloseDone(e))))
    case CloseDone(e) =>
      s.(flights := s.flights[f := s.flights[f].(closed := true)],
         threads := Go(s, t, if e.Exits? then Gone else Returned(ResultOf(e))))
  }

  // ------------------------------------------------------------- invariant

  predicate Leads(pc: PC, f: nat) {
    pc.Leading? && pc.flight == f
  }

  predicate HoldsLock(pc: PC) {
    pc.Locked? || (pc.Leading? && !pc.stage.Build? && !pc.stage.WantCleanup? && !pc.stage.CloseDone?)
  }

  predicate Finished(pc: PC) {
    pc.Returned? || pc.Gone?
  }

  /** The flight is out of the cell: only its channel is still to be closed. */
  predicate Landed(stage: Stage) {
    stage.Unlock? || stage.CloseDone?
  }

  /** The builder has returned a value that is not yet recorded as done. */
  predicate HasBuilt(stage: Stage) {
    (stage.WantCleanup? && stage.exit.Returns?) || stage.SetVal? || stage.SetDone?
  }

  /** What the leader of flight f may rely on. */
  predicate LeaderInv(s: State, f: nat, stage: Stage)
    requires f < |s.flights|
  {
    && (s.cur == Some(f) <==> !Landed(stage))
    && match stage
       case Build => !s.done
       case WantCleanup(_) => !s.done
       case SetVal(_) => !s.done
       case SetDone(v) => !s.done && s.val == v
       case SetReady(v) => s.done && s.val == v
       case Settle(e) => s.done == e.Returns? && (e.Returns? ==> s.ready && s.val == e.v)
       case Unlock(e) => Outcome(s, f, e)
       case CloseDone(e) => Outcome(s, f, e)
  }

  /** f carries the outcome e, and a value in it is the cell's. */
  predicate Outcome(s: State, f: nat, e: Exit)
    requires f < |s.flights|
  {
    && s.flights[f].settled == !e.Exits? && s.flights[f].result == ResultOf(e)
    && (e.Returns? ==> s.done && s.val == e.v)
  }

  /** What thread t, being at pc, may rely on. */
  predicate ThreadInv(s: State, t: nat, pc: PC) {
    && (HoldsLock(pc) ==> s.mu == Some(t))
    && (OnFlight(pc) ==> pc.flight < |s.flights|)
    && match pc
       case FastRead => s.ready
       case WantLock(seen) => SeenInv(s, seen)
       case Locked(seen) => SeenInv(s, seen)
       case Woken(f) => s.flights[f].closed
       case Leading(f, stage) => s.flights[f].leader == t && LeaderInv(s, f, stage)
       case Returned(Value(v)) => s.done && v == s.val
       case _ => true
  }

  predicate ThreadOk(s: State, t: nat) {
    t < |s.threads| && ThreadInv(s, t, s.threads[t])
  }

  /** A flight in progress is one the thread has not waited for yet. */
  predicate SeenInv(s: State, seen: nat) {
    seen <= |s.flights| && (s.cur.Some? ==> seen <= s.cur.value)
  }

  predicate FlightInv(s: State, f: nat)
    requires f < |s.flights|
  {
    var fl := s.flights[f];
    && fl.leader < |s.threads|
    && (Leads(s.threads[fl.leader], f) || Finished(s.threads[fl.leader]))
    && (fl.closed <==> !Leads(s.threads[fl.leader], f))
    && (fl.closed ==> s.cur != Some(f))
    && (fl.settled && fl.result.Value? ==> s.done && fl.result.v == s.val)
  }

  /** The flight in progress is the last one and its leader is still at work on it. */
  predicate CurInv(s: State) {
    s.cur.Some? ==>
      && s.cur.value == |s.flights| - 1
      && s.flights[s.cur.value].leader < |s.threads|
      && var pc := s.threads[s.flights[s.cur.value].leader];
         Leads(pc, s.cur.value) && !Landed(pc.stage)
  }

  predicate BuiltInv(s: State)
    requires CurInv(s)
  {
    && s.built <= 1
    && (s.built == 1 <==>
          s.done || (s.cur.Some? && HasBuilt(s.threads[s.flights[s.cur.value].leader].stage)))
  }

  predicate Core(s: State) {
    && (s.ready ==> s.done)
    && (s.mu.Some? ==> s.mu.value < |s.threads| && HoldsLock(s.threads[s.mu.value]))
    && CurInv(s) && BuiltInv(s)
  }

  /** No thread leads twice. */
  predicate LeadersDistinct(s: State) {
    forall f, g :: 0 <= f < g < |s.flights| ==> s.flights[f].leader != s.flights[g].leader
  }

  predicate Inv(s: State) {
    && Core(s) && LeadersDistinct(s)
    && (forall t :: 0 <= t < |s.threads| ==> ThreadOk(s, t))
    && (forall f :: 0 <= f < |s.flights| ==> FlightInv(s, f))
  }

  lemma InitInv(n: nat)
    ensures Inv(Init(n))
  {
  }

  /** Everything the step of thread t relies on. */
  predicate StepPre(s: State, t: nat) {
    && Core(s) && Enabled(s, t) && ThreadInv(s, t, s.threads[t])
    && (OnFlight(s.threads[t]) ==> FlightInv(s, s.threads[t].flight))
  }

  /** Stages up to the publication of the value, which leave the flights alone. */
  predicate EarlyStage(pc: PC) {
    pc.Leading? && (pc.stage.Build? || pc.stage.WantCleanup? || pc.stage.SetVal? || pc.stage.SetDone? || pc.stage.SetReady?)
  }

  predicate LateStage(pc: PC) {
    pc.Leading? && (pc.stage.Settle? || pc.stage.Unlock? || pc.stage.CloseDone?)
  }

  lemma EarlyCore(s: State, t: nat, exit: Exit)
    requires StepPre(s, t) && EarlyStage(s.threads[t])
    ensures Core(Step(s, t, exit))
  {
    match s.threads[t].stage
    case Build =>
    case WantCleanup(_) =>
    case SetVal(_) =>
    case SetDone(_) =>
    case SetReady(_) =>
  }

  lemma LateCore(s: State, t: nat, exit: Exit)
    requires StepPre(s, t) && LateStage(s.threads[t])
    ensures Core(Step(s, t, exit))
  {
    match s.threads[t].stage
    case Settle(_) =>
    case Unlock(_) =>
    case CloseDone(_) =>
  }

  lemma StepCore(s: State, t: nat, exit: Exit)
    requires StepPre(s, t)
    ensures Core(Step(s, t, exit))
  {
    match s.threads[t]
    case Start =>
    case FastRead =>
    case WantLock(_) =>
    case Locked(_) =>
    case Parked(_) =>
    case Woken(_) =>
    case Leading(_, _) =>
      if EarlyStage(s.threads[t]) {
        EarlyCore(s, t, exit);
      } else {
        LateCore(s, t, exit);
      }
  }

  lemma EarlyOwnThread(s: State, t: nat, exit: Exit)
    requires StepPre(s, t) && EarlyStage(s.threads[t])
    ensures ThreadInv(Step(s, t, exit), t, Step(s, t, exit).threads[t])
  {
    match s.threads[t].stage
    case Build =>
    case WantCleanup(_) =>
    case SetVal(_) =>
    case SetDone(_) =>
    case SetReady(_) =>
  }

  lemma LateOwnThread(s: State, t: nat, exit: Exit)
    requires StepPre(s, t) && LateStage(s.threads[t])
    ensures ThreadInv(Step(s, t, exit), t, Step(s, t, exit).threads[t])
  {
    match s.threads[t].stage
    case Settle(_) =>
    case Unlock(_) =>
    case CloseDone(_) =>
  }

  lemma StepOwnThread(s: State, t: nat, exit: Exit)
    requires StepPre(s, t)
    ensures ThreadInv(Step(s, t, exit), t, Step(s, t, exit).threads[t])
  {
    match s.threads[t]
    case Start =>
    case FastRead =>
    case WantLock(_) =>
    case Locked(_) =>
    case Parked(_) =>
    case Woken(_) =>
    case Leading(_, _) =>
      if EarlyStage(s.threads[t]) {
        EarlyOwnThread(s, t, exit);
      } else {
        LateOwnThread(s, t, exit);
      }
  }

  lemma EarlyOtherThread(s: State, t: nat, exit: Exit, u: nat)
    requires StepPre(s, t) && EarlyStage(s.threads[t]) && u < |s.threads| && u != t && ThreadInv(s, u, s.threads[u])
    ensures Step(s, t, exit).threads[u] == s.threads[u]
    ensures ThreadInv(Step(s, t, exit), u, s.threads[u])
  {
    match s.threads[t].stage
    case Build =>
    case WantCleanup(_) =>
    case SetVal(_) =>
    case SetDone(_) =>
    case SetReady(_) =>
  }

  lemma LateOtherThread(s: State, t: nat, exit: Exit, u: nat)
    requires StepPre(s, t) && LateStage(s.threads[t]) && u < |s.threads| && u != t && ThreadInv(s, u, s.threads[u])
    ensures Step(s, t, exit).threads[u] == s.threads[u]
    ensures ThreadInv(Step(s, t, exit), u, s.threads[u])
  {
    match s.threads[t].stage
    case Settle(_) =>
    case Unlock(_) =>
    case CloseDone(_) =>
  }

  /** A call that only looks, or takes the lock, disturbs nobody. */
  lemma LookingOtherThread(s: State, t: nat, exit: Exit, u: nat)
    requires StepPre(s, t) && u < |s.threads| && u != t && ThreadInv(s, u, s.threads[u])
    requires s.threads[t].Start? || s.threads[t].FastRead? || s.threads[t].WantLock?
    ensures Step(s, t, exit).threads[u] == s.threads[u]
    ensures ThreadInv(Step(s, t, exit), u, s.threads[u])
  {
    match s.threads[t]
    case Start =>
    case FastRead =>
    case WantLock(_) =>
  }

  /** One that lets go of the lock leaves, parks or begins a flight of its own. */
  lemma LockedOtherThread(s: State, t: nat, exit: Exit, u: nat)
    requires StepPre(s, t) && u < |s.threads| && u != t && ThreadInv(s, u, s.threads[u])
    requires s.threads[t].Locked?
    ensures Step(s, t, exit).threads[u] == s.threads[u]
    ensures ThreadInv(Step(s, t, exit), u, s.threads[u])
  {
  }

  lemma WaitingOtherThread(s: State, t: nat, exit: Exit, u: nat)
    requires StepPre(s, t) && u < |s.threads| && u != t && ThreadInv(s, u, s.threads[u])
    requires s.threads[t].Parked? || s.threads[t].Woken?
    ensures Step(s, t, exit).threads[u] == s.threads[u]
    ensures ThreadInv(Step(s, t, exit), u, s.threads[u])
  {
    match s.threads[t]
    case Parked(_) =>
    case Woken(_) =>
  }

  lemma StepOtherThread(s: State, t: nat, exit: Exit, u: nat)
    requires StepPre(s, t) && u < |s.threads| && u != t && ThreadInv(s, u, s.threads[u])
    ensures Step(s, t, exit).threads[u] == s.threads[u]
    ensures ThreadInv(Step(s, t, exit), u, s.threads[u])
  {
    match s.threads[t]
    case Start => LookingOtherThread(s, t, exit, u);
    case FastRead => LookingOtherThread(s, t, exit, u);
    case WantLock(_) => LookingOtherThread(s, t, exit, u);
    case Locked(_) => LockedOtherThread(s, t, exit, u);
    case Parked(_) => WaitingOtherThread(s, t, exit, u);
    case Woken(_) => WaitingOtherThread(s, t, exit, u);
    case Leading(_, _) =>
      if EarlyStage(s.threads[t]) {
        EarlyOtherThread(s, t, exit, u);
      } else {
        LateOtherThread(s, t, exit, u);
      }
  }

  lemma EarlyFlight(s: State, t: nat, exit: Exit, f: nat)
    requires StepPre(s, t) && EarlyStage(s.threads[t]) && f < |Step(s, t, exit).flights|
    requires f < |s.flights| ==> FlightInv(s, f)
    ensures FlightInv(Step(s, t, exit), f)
  {
    match s.threads[t].stage
    case Build =>
    case WantCleanup(_) =>
    case SetVal(_) =>
    case SetDone(_) =>
    case SetReady(_) =>
  }

  lemma LateFlight(s: State, t: nat, exit: Exit, f: nat)
    requires StepPre(s, t) && LateStage(s.threads[t]) && f < |Step(s, t, exit).flights|
    requires f < |s.flights| ==> FlightInv(s, f)
    ensures FlightInv(Step(s, t, exit), f)
  {
    match s.threads[t].stage
    case Settle(_) =>
    case Unlock(_) =>
    case CloseDone(_) =>
  }

  lemma StepFlight(s: State, t: nat, exit: Exit, f: nat)
    requires StepPre(s, t) && f < |Step(s, t, exit).flights|
    requires f < |s.flights| ==> FlightInv(s, f)
    ensures FlightInv(Step(s, t, exit), f)
  {
    match s.threads[t]
    case Start =>
    case FastRead =>
    case WantLock(_) =>
    case Locked(_) =>
    case Parked(_) =>
    case Woken(_) =>
    case Leading(_, _) =>
      if EarlyStage(s.threads[t]) {
        EarlyFlight(s, t, exit, f);
      } else {
        LateFlight(s, t, exit, f);
      }
  }

  lemma StepLeaders(s: State, t: nat, exit: Exit)
    requires Inv(s) && Enabled(s, t)
    ensures LeadersDistinct(Step(s, t, exit))
  {
    var s' := Step(s, t, exit);
    assert forall f :: 0 <= f < |s.flights| ==> s'.flights[f].leader == s.flights[f].leader;
    if s.threads[t].Locked? {
      forall f | 0 <= f < |s.flights| ensures s.flights[f].leader != t {
        assert FlightInv(s, f);
      }
    }
  }

  lemma StepInv(s: State, t: nat, exit: Exit)
    requires Inv(s) && Enabled(s, t)
    ensures Inv(Step(s, t, exit))
  {
    assert ThreadOk(s, t) && StepPre(s, t);
    var s' := Step(s, t, exit);
    StepCore(s, t, exit);
    StepLeaders(s, t, exit);
    forall u | 0 <= u < |s'.threads| ensures ThreadOk(s', u) {
      assert u < |s.threads| ==> ThreadOk(s, u);
      if u == t {
        StepOwnThread(s, t, exit);
      } else {
        StepOtherThread(s, t, exit, u);
      }
    }
    forall f | 0 <= f < |s'.flights| ensures FlightInv(s', f) {
      StepFlight(s, t, exit, f);
    }
  }

  // ------------------------------------------------------------------- runs

  /** Any interleaving: the threads to step and how builders end; disabled choices are skipped. */
  function Run(s: State, schedule: seq<(nat, Exit)>): State
    decreases |schedule|
  {
    if schedule == [] then s
    else
      var (t, exit) := schedule[0];
      Run(if Enabled(s, t) then Step(s, t, exit) else s, schedule[1..])
  }

  lemma {:induction false} RunInv(s: State, schedule: seq<(nat, Exit)>)
    requires Inv(s)
    ensures Inv(Run(s, schedule))
    decreases |schedule|
  {
    if schedule != [] {
      var (t, exit) := schedule[0];
      if Enabled(s, t) {
        StepInv(s, t, exit);
        RunInv(Step(s, t, exit), schedule[1..]);
      } else {
        RunInv(s, schedule[1..]);
      }
    }
  }

  /** Building, or in the cleanup that has not yet taken the flight out of the cell. */
  predicate InProgress(pc: PC) {
    pc.Leading? && !Landed(pc.stage)
  }

  /**
   * In every reachable state of any number of calls: at most one build has
   * succeeded, at most one flight is in progress, ready implies done, and every
   * value returned so far is the one value of the cell.
   */
  lemma EveryRunIsSafe(n: nat, schedule: seq<(nat, Exit)>)
    ensures var s := Run(Init(n), schedule);
            && s.built <= 1
            && (s.ready ==> s.done) && (s.done ==> s.built == 1)
            && (forall t, u | 0 <= t < |s.threads| && 0 <= u < |s.threads| ::
                  InProgress(s.threads[t]) && InProgress(s.threads[u]) ==> t == u)
            && (forall t | 0 <= t < |s.threads| ::
                  s.threads[t].Returned? && s.threads[t].result.Value? ==> s.done && s.threads[t].result.v == s.val)
  {
    InitInv(n);
    RunInv(Init(n), schedule);
    var s := Run(Init(n), schedule);
    forall t | 0 <= t < |s.threads| && s.threads[t].Returned? && s.threads[t].result.Value?
      ensures s.done && s.threads[t].result.v == s.val
    {
      assert ThreadOk(s, t);
    }
    forall t, u | 0 <= t < |s.threads| && 0 <= u < |s.threads|
                  && InProgress(s.threads[t]) && InProgress(s.threads[u])
      ensures t == u
    {
      assert ThreadOk(s, t) && ThreadOk(s, u);
    }
  }

  lemma StepKeepsValue(s: State, t: nat, exit: Exit)
    requires Inv(s) && s.done && Enabled(s, t)
    ensures var s' := Step(s, t, exit);
            s'.done && s'.val == s.val && s'.built == s.built && (s.ready ==> s'.ready)
  {
    assert ThreadOk(s, t);
  }

  /** Once done the value is final, whatever runs afterwards. */
  lemma {:induction false} ValueIsFinal(s: State, schedule: seq<(nat, Exit)>)
    requires Inv(s) && s.done
    ensures var s' := Run(s, schedule);
            s'.done && s'.val == s.val && s'.built == s.built && (s.ready ==> s'.ready)
    decreases |schedule|
  {
    if schedule != [] {
      var (t, exit) := schedule[0];
      if Enabled(s, t) {
        StepInv(s, t, exit);
        StepKeepsValue(s, t, exit);
        ValueIsFinal(Step(s, t, exit), schedule[1..]);
      } else {
        ValueIsFinal(s, schedule[1..]);
      }
    }
  }

  lemma StepKeepsClosedFlight(s: State, t: nat, exit: Exit, f: nat)
    requires Inv(s) && Enabled(s, t) && f < |s.flights| && s.flights[f].closed
    ensures f < |Step(s, t, exit).flights| && Step(s, t, exit).flights[f] == s.flights[f]
  {
    assert ThreadOk(s, t);
    assert FlightInv(s, f);
  }

  /** Still waiting for flight f, or back with r. */
  predicate WaitsOrHas(pc: PC, f: nat, r: Res) {
    pc == Parked(f) || pc == Woken(f) || pc == Returned(r)
  }

  /** A waiter of a settled flight returns that flight's own result and never builds. */
  lemma {:induction false} WaiterSharesResult(s: State, schedule: seq<(nat, Exit)>, t: nat, f: nat)
    requires Inv(s) && t < |s.threads| && f < |s.flights| && s.flights[f].closed && s.flights[f].settled
    requires WaitsOrHas(s.threads[t], f, s.flights[f].result)
    ensures var s' := Run(s, schedule);
            |s'.threads| == |s.threads| && WaitsOrHas(s'.threads[t], f, s.flights[f].result)
    decreases |schedule|
  {
    if schedule != [] {
      var (u, exit) := schedule[0];
      if Enabled(s, u) {
        StepInv(s, u, exit);
        StepKeepsClosedFlight(s, u, exit, f);
        WaiterSharesResult(Step(s, u, exit), schedule[1..], t, f);
      } else {
        WaiterSharesResult(s, schedule[1..], t, f);
      }
    }
  }

  /** The flight of a parked thread is closed, or its leader is still at work. */
  lemma NoWaiterIsWedged(s: State, t: nat)
    requires Inv(s) && t < |s.threads| && s.threads[t].Parked?
    ensures var f := s.threads[t].flight;
            && f < |s.flights| && s.flights[f].leader < |s.threads|
            && (s.flights[f].closed || Leads(s.threads[s.flights[f].leader], f))
  {
    assert ThreadOk(s, t);
    assert FlightInv(s, s.threads[t].flight);
  }

  /** As long as a call is unfinished some call can move. */
  lemma SomeThreadMoves(s: State, t: nat)
    requires Inv(s) && t < |s.threads| && !Finished(s.threads[t])
    ensures exists u :: Enabled(s, u)
  {
    assert ThreadOk(s, t);
    if s.mu.Some? {
      assert ThreadOk(s, s.mu.value);
      assert Enabled(s, s.mu.value);
    } else if s.threads[t].Parked? {
      NoWaiterIsWedged(s, t);
      var leader := s.flights[s.threads[t].flight].leader;
      assert ThreadOk(s, leader);
      assert Enabled(s, t) || Enabled(s, leader);
    } else {
      assert Enabled(s, t);
    }
  }

  // ---------------------------------------------------------------- progress

  /** Steps a call has left at most, when no more than n flights can ever start. */
  function Rank(pc: PC, n: nat): int {
    match pc
    case Start => 8 * n + 13
    case FastRead => 1
    case WantLock(seen) => 8 * (n - seen) + 12
    case Locked(seen) => 8 * (n - seen) + 11
    case Parked(f) => 8 * (n - f) + 10
    case Woken(f) => 8 * (n - f) + 9
    case Leading(_, stage) => StageRank(stage)
    case Returned(_) => 0
    case Gone => 0
  }

  function StageRank(stage: Stage): int {
    match stage
    case Build => 8
    case WantCleanup(_) => 7
    case SetVal(_) => 6
    case SetDone(_) => 5
    case SetReady(_) => 4
    case Settle(_) => 3
    case Unlock(_) => 2
    case CloseDone(_) => 1
  }

  function Measure(threads: seq<PC>, n: nat): int {
    if threads == [] then 0 else Rank(threads[0], n) + Measure(threads[1..], n)
  }

  lemma {:induction false} MeasureUpdate(threads: seq<PC>, n: nat, t: nat, pc: PC)
    requires t < |threads|
    ensures Measure(threads[t := pc], n) == Measure(threads, n) - Rank(threads[t], n) + Rank(pc, n)
  {
    if t == 0 {
      assert threads[0 := pc][1..] == threads[1..];
    } else {
      assert threads[t := pc][1..] == threads[1..][t - 1 := pc];
      MeasureUpdate(threads[1..], n, t - 1, pc);
    }
  }

  lemma {:induction false} DistinctBound(xs: seq<nat>, n: nat)
    requires forall i :: 0 <= i < |xs| ==> xs[i] < n
    requires forall i, j :: 0 <= i < j < |xs| ==> xs[i] != xs[j]
    ensures |xs| <= n
  {
    if xs != [] {
      assert xs[0] < n;
      if k :| 0 <= k < |xs| && xs[k] == n - 1 {
        DistinctBound(xs[..k] + xs[k + 1..], n - 1);
      } else {
        DistinctBound(xs, n - 1);
      }
    }
  }

  /** Every flight has its own leader, so there are no more flights than threads. */
  lemma FlightsBounded(s: State)
    requires Inv(s)
    ensures |s.flights| <= |s.threads|
  {
    var leaders := seq(|s.flights|, f requires 0 <= f < |s.flights| => s.flights[f].leader);
    forall f | 0 <= f < |leaders| ensures leaders[f] < |s.threads| {
      assert FlightInv(s, f);
    }
    DistinctBound(leaders, |s.threads|);
  }

  lemma EarlyLowersRank(s: State, t: nat, exit: Exit, n: nat)
    requires Enabled(s, t) && EarlyStage(s.threads[t])
    ensures 0 <= Rank(Step(s, t, exit).threads[t], n) < Rank(s.threads[t], n)
  {
    match s.threads[t].stage
    case Build =>
    case WantCleanup(_) =>
    case SetVal(_) =>
    case SetDone(_) =>
    case SetReady(_) =>
  }

  lemma LateLowersRank(s: State, t: nat, exit: Exit, n: nat)
    requires Enabled(s, t) && LateStage(s.threads[t])
    ensures 0 <= Rank(Step(s, t, exit).threads[t], n) < Rank(s.threads[t], n)
  {
    match s.threads[t].stage
    case Settle(_) =>
    case Unlock(_) =>
    case CloseDone(_) =>
  }

  lemma StepLowersRank(s: State, t: nat, exit: Exit, n: nat)
    requires Enabled(s, t) && ThreadInv(s, t, s.threads[t]) && CurInv(s) && |s.flights| <= n
    ensures 0 <= Rank(Step(s, t, exit).threads[t], n) < Rank(s.threads[t], n)
  {
    match s.threads[t]
    case Start =>
    case FastRead =>
    case WantLock(_) =>
    case Locked(_) =>
    case Parked(_) =>
    case Woken(_) =>
    case Leading(_, _) => if EarlyStage(s.threads[t]) {
        EarlyLowersRank(s, t, exit, n);
      } else {
        LateLowersRank(s, t, exit, n);
      }
  }

  /** A step moves its own thread only. */
  lemma StepMovesOne(s: State, t: nat, exit: Exit)
    requires Enabled(s, t)
    ensures Step(s, t, exit).threads == s.threads[t := Step(s, t, exit).threads[t]]
  {
  }

  lemma {:induction false} MeasureNonNegative(s: State, k: nat)
    requires Inv(s) && k <= |s.threads|
    ensures Measure(s.threads[k..], |s.threads|) >= 0
    decreases |s.threads| - k
  {
    if k < |s.threads| {
      assert ThreadOk(s, k);
      FlightsBounded(s);
      MeasureNonNegative(s, k + 1);
      assert s.threads[k..][1..] == s.threads[k + 1..];
    }
  }

  /** Every choice of the schedule is a step. */
  predicate AllEnabled(s: State, schedule: seq<(nat, Exit)>)
    decreases |schedule|
  {
    schedule == [] ||
    (Enabled(s, schedule[0].0) && AllEnabled(Step(s, schedule[0].0, schedule[0].1), schedule[1..]))
  }

  lemma {:induction false} StepsBounded(s: State, schedule: seq<(nat, Exit)>)
    requires Inv(s) && AllEnabled(s, schedule)
    decreases |schedule|
    ensures |schedule| <= Measure(s.threads, |s.threads|)
  {
    if schedule == [] {
      MeasureNonNegative(s, 0);
      assert s.threads[0..] == s.threads;
    } else {
      var (t, exit) := schedule[0];
      StepInv(s, t, exit);
      assert ThreadOk(s, t);
      FlightsBounded(s);
      StepLowersRank(s, t, exit, |s.threads|);
      StepMovesOne(s, t, exit);
      MeasureUpdate(s.threads, |s.threads|, t, Step(s, t, exit).threads[t]);
      StepsBounded(Step(s, t, exit), schedule[1..]);
    }
  }

  lemma {:induction false} InitMeasure(n: nat, k: nat)
    ensures Measure(seq(k, _ => Start), n) == k * (8 * n + 13)
  {
    if k > 0 {
      assert seq(k, _ => Start)[1..] == seq(k - 1, _ => Start);
      InitMeasure(n, k - 1);
    }
  }

  /**
   * No run of n calls takes more than n * (8n + 13) steps, and one that cannot
   * be extended has every call finished: nobody waits for ever, whatever the
   * builders do.
   */
  lemma EveryRunEnds(n: nat, schedule: seq<(nat, Exit)>)
    requires AllEnabled(Init(n), schedule)
    ensures |schedule| <= n * (8 * n + 13)
    ensures var s := Run(Init(n), schedule);
            (forall t :: !Enabled(s, t)) ==> forall t :: 0 <= t < |s.threads| ==> Finished(s.threads[t])
  {
    InitInv(n);
    StepsBounded(Init(n), schedule);
    InitMeasure(n, n);
    RunInv(Init(n), schedule);
    var s := Run(Init(n), schedule);
    if t :| 0 <= t < |s.threads| && !Finished(s.threads[t]) {
      SomeThreadMoves(s, t);
    }
  }

  /** After a failure the cell is idle and the next call to get the lock leads. */
  lemma IdleCellLetsNextLead(s: State, t: nat, exit: Exit)
    requires Inv(s) && Enabled(s, t) && s.threads[t].Locked? && !s.done
    requires forall u :: 0 <= u < |s.threads| ==> !InProgress(s.threads[u])
    ensures InProgress(Step(s, t, exit).threads[t])
  {
    assert s.cur.None? by {
      if s.cur.Some? {
        assert InProgress(s.threads[s.flights[s.cur.value].leader]);
      }
    }
  }

  // ------------------------------------------------------------ other readers

  /** getIfResolved and resolved, which read under the lock and never build. */
  function GetIfResolved(s: State): Option<int> {
    if s.done then Some(s.val) else None
  }

  /** Whatever getIfResolved reports stays what it reports. */
  lemma ResolvedStaysResolved(s: State, schedule: seq<(nat, Exit)>)
    requires Inv(s) && GetIfResolved(s).Some?
    ensures GetIfResolved(Run(s, schedule)) == GetIfResolved(s)
  {
    ValueIsFinal(s, schedule);
  }
}
