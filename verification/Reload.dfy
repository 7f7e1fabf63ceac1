/**
 * ReloadableLimiter of container/reload.go: limiters are swapped under calls
 * in flight, and a replaced one is closed once its last call has drained.
 * Every lock-protected section and every atomic access is one step; any
 * number of goroutines each make one call of Allow, Swap or Close.
 */
module Reload {
  import opened Basics

  /** A limiterBox. once is closeOnce; closes counts calls of the limiter's Close. */
  datatype Box = Box(limiter: int, owned: bool, inflight: nat, retired: bool, once: bool, closes: nat)

  /** Allow stands for Reset as well: both go through use. */
  datatype Call = Allow | Swap(next: Option<int>) | Close

  /** Load remembers how many boxes have been tried in vain. */
  datatype Mode =
    | Load(tried: nat)
    | Acquire(b: nat)
    | Recheck(b: nat)
    | Running(b: nat)
    | PassingThrough(b: nat)
    | Drained(b: nat)
    | WantSwap(next: Option<int>)
    | WantClose
    | Retire(b: nat)
    | Finish(b: nat)
    | Done

  /** mu names the thread inside Swap or Close. */
  datatype State = State(boxes: seq<Box>, current: nat, closed: bool, mu: Option<nat>, modes: seq<Mode>)

  function Start(c: Call): Mode {
    match c
    case Allow => Load(0)
    case Swap(next) => WantSwap(next)
    case Close => WantClose
  }

  function Init(initial: int, calls: seq<Call>): State {
    State([Box(initial, false, 0, false, false, 0)], 0, false, None,
          seq(|calls|, i requires 0 <= i < |calls| => Start(calls[i])))
  }

  predicate Enabled(s: State, t: nat) {
    && t < |s.modes| && s.current < |s.boxes|
    && match s.modes[t]
       case Load(_) => true
       case Acquire(b) => b < |s.boxes|
       case Recheck(_) => true
       case Running(b) => b < |s.boxes| && s.boxes[b].inflight > 0
       case PassingThrough(_) => true
       case Drained(b) => b < |s.boxes|
       case WantSwap(_) => s.mu == None
       case WantClose => s.mu == None
       case Retire(b) => b < |s.boxes|
       case Finish(b) => b < |s.boxes|
       case Done => false
  }

  /** finish: an owned limiter is closed by whoever gets here first. */
  function Finished(box: Box): Box {
    if box.owned && !box.once then box.(once := true, closes := box.closes + 1) else box
  }

  function Step(s: State, t: nat): State
    requires Enabled(s, t)
  {
    match s.modes[t]
    case Load(_) => s.(modes := s.modes[t := Acquire(s.current)])
    case Acquire(b) =>
      var box := s.boxes[b];
      if box.retired then s.(modes := s.modes[t := Recheck(b)])
      else s.(boxes := s.boxes[b := box.(inflight := box.inflight + 1)], modes := s.modes[t := Running(b)])
    case Recheck(b) => s.(modes := s.modes[t := if s.current == b then PassingThrough(b) else Load(b + 1)])
    case Running(b) =>
      var box := s.boxes[b];
      s.(boxes := s.boxes[b := box.(inflight := box.inflight - 1)],
         modes := s.modes[t := if box.retired && box.inflight == 1 then Drained(b) else Done])
    case PassingThrough(_) => s.(modes := s.modes[t := Done])
    case Drained(b) => s.(boxes := s.boxes[b := Finished(s.boxes[b])], modes := s.modes[t := Done])
    case WantSwap(next) =>
      if next == None || s.closed then s.(modes := s.modes[t := Done])
      else State(s.boxes + [Box(next.value, true, 0, false, false, 0)], |s.boxes|, false, Some(t),
                 s.modes[t := Retire(s.current)])
    case WantClose => s.(closed := true, mu := Some(t), modes := s.modes[t := Retire(s.current)])
    case Retire(b) =>
      var box := s.boxes[b];
      s.(boxes := s.boxes[b := box.(retired := true)],
         mu := if box.inflight == 0 then s.mu else None,
         modes := s.modes[t := if box.inflight == 0 then Finish(b) else Done])
    case Finish(b) => s.(boxes := s.boxes[b := Finished(s.boxes[b])], mu := None, modes := s.modes[t := Done])
    case Done => s
  }

  // --------------------------------------------------------------- invariant

  /** How many calls are running on box b. */
  function Runners(modes: seq<Mode>, b: nat): nat {
    if modes == [] then 0 else (if modes[0] == Running(b) then 1 else 0) + Runners(modes[1..], b)
  }

  lemma {:induction false} RunnersUpdate(modes: seq<Mode>, b: nat, t: nat, m: Mode)
    requires t < |modes|
    ensures Runners(modes[t := m], b) + (if modes[t] == Running(b) then 1 else 0)
            == Runners(modes, b) + (if m == Running(b) then 1 else 0)
  {
    if t == 0 {
      assert modes[t := m][1..] == modes[1..];
    } else {
      assert modes[t := m][1..] == modes[1..][t - 1 := m];
      RunnersUpdate(modes[1..], b, t - 1, m);
    }
  }

  lemma {:induction false} RunnersPositive(modes: seq<Mode>, b: nat, t: nat)
    requires t < |modes| && modes[t] == Running(b)
    ensures Runners(modes, b) > 0
  {
    if t > 0 {
      RunnersPositive(modes[1..], b, t - 1);
    }
  }

  lemma {:induction false} RunnersZero(modes: seq<Mode>, b: nat)
    requires forall t :: 0 <= t < |modes| ==> modes[t] != Running(b)
    ensures Runners(modes, b) == 0
  {
    if modes != [] {
      RunnersZero(modes[1..], b);
    }
  }

  /** Someone is about to close box b's limiter. */
  predicate AboutToFinish(s: State, b: nat) {
    exists t :: 0 <= t < |s.modes| && (s.modes[t] == Drained(b) || s.modes[t] == Finish(b))
  }

  /** Someone holding mu is about to retire box b. */
  predicate AboutToRetire(s: State, b: nat) {
    s.mu.Some? && s.mu.value < |s.modes| && s.modes[s.mu.value] == Retire(b)
  }

  predicate BoxInv(s: State, b: nat)
    requires b < |s.boxes|
  {
    BooksInv(s, b) && PromiseInv(s, b)
  }

  /** What the box records. */
  predicate BooksInv(s: State, b: nat)
    requires b < |s.boxes|
  {
    var box := s.boxes[b];
    && (box.owned <==> b > 0)
    && box.inflight == Runners(s.modes, b)
    && box.closes == (if box.once then 1 else 0)
    && (box.once ==> box.owned && box.retired && box.inflight == 0)
    && (box.retired && b == s.current ==> s.closed)
  }

  /** What is still to be done with the box has someone to do it. */
  predicate PromiseInv(s: State, b: nat)
    requires b < |s.boxes|
  {
    var box := s.boxes[b];
    && (box.owned && box.retired && box.inflight == 0 && !box.once ==> AboutToFinish(s, b))
    && (!box.retired && (b != s.current || s.closed) ==> AboutToRetire(s, b))
  }

  predicate ModeInv(s: State, t: nat)
    requires t < |s.modes|
  {
    match s.modes[t]
    case Load(tried) => tried < |s.boxes|
    case Acquire(b) => b < |s.boxes|
    case Recheck(b) => b < |s.boxes| && s.boxes[b].retired
    case Running(b) => b < |s.boxes|
    case PassingThrough(b) => s.closed && b == s.current && b < |s.boxes| && s.boxes[b].retired
    case Drained(b) => b < |s.boxes| && s.boxes[b].retired && s.boxes[b].inflight == 0
    case WantSwap(_) => true
    case WantClose => true
    case Retire(b) => s.mu == Some(t) && b < |s.boxes| && (b == s.current ==> s.closed)
    case Finish(b) => s.mu == Some(t) && b < |s.boxes| && s.boxes[b].retired && s.boxes[b].inflight == 0
    case Done => true
  }

  predicate Inv(s: State) {
    && s.current == |s.boxes| - 1
    && (s.mu.Some? ==> s.mu.value < |s.modes| && (s.modes[s.mu.value].Retire? || s.modes[s.mu.value].Finish?))
    && (forall t :: 0 <= t < |s.modes| ==> ModeInv(s, t))
    && (forall b :: 0 <= b < |s.boxes| ==> BoxInv(s, b))
  }

  lemma InitInv(initial: int, calls: seq<Call>)
    ensures Inv(Init(initial, calls))
  {
    RunnersZero(Init(initial, calls).modes, 0);
  }

  /** Retired boxes stay retired, and drained ones stay drained. */
  lemma StepKeepsRetired(s: State, t: nat, b: nat)
    requires Inv(s) && Enabled(s, t) && b < |s.boxes|
    ensures |s.boxes| <= |Step(s, t).boxes|
    ensures var box, box' := s.boxes[b], Step(s, t).boxes[b];
            && box'.limiter == box.limiter && box'.owned == box.owned
            && (box.once ==> box'.once)
            && (box.retired ==> box'.retired)
            && (box.retired && box.inflight == 0 ==> box'.inflight == 0)
  {
    if s.modes[t] == Running(b) {
      RunnersPositive(s.modes, b, t);
      assert BoxInv(s, b);
    }
  }

  lemma StepOthers(s: State, t: nat)
    requires Enabled(s, t)
    ensures Step(s, t).modes == s.modes[t := Step(s, t).modes[t]]
    ensures |s.boxes| <= |Step(s, t).boxes| && (s.closed ==> Step(s, t).closed)
    ensures s.closed || s.mu.Some? ==> Step(s, t).current == s.current
  {
  }

  lemma StepOtherMode(s: State, t: nat, u: nat)
    requires Inv(s) && Enabled(s, t) && u < |s.modes| && u != t
    ensures |Step(s, t).modes| == |s.modes| && ModeInv(Step(s, t), u)
  {
    StepOthers(s, t);
    assert ModeInv(s, t) && ModeInv(s, u);
    match s.modes[u]
    case Recheck(b) => StepKeepsRetired(s, t, b);
    case PassingThrough(b) => StepKeepsRetired(s, t, b);
    case Drained(b) => StepKeepsRetired(s, t, b);
    case Finish(b) => StepKeepsRetired(s, t, b);
    case _ =>
  }

  lemma StepOwnMode(s: State, t: nat)
    requires Inv(s) && Enabled(s, t)
    ensures |Step(s, t).modes| == |s.modes| && ModeInv(Step(s, t), t)
  {
    assert ModeInv(s, t);
    match s.modes[t]
    case Acquire(b) => assert BoxInv(s, b);
    case Recheck(b) => assert BoxInv(s, b);
    case Running(b) => assert BoxInv(s, b);
    case _ =>
  }

  /** The running calls of each box are counted by the step. */
  lemma StepRunners(s: State, t: nat, b: nat)
    requires Inv(s) && Enabled(s, t) && b < |Step(s, t).boxes|
    ensures Step(s, t).boxes[b].inflight == Runners(Step(s, t).modes, b)
  {
    RunnersUpdate(s.modes, b, t, Step(s, t).modes[t]);
    if b < |s.boxes| {
      assert BoxInv(s, b);
    } else {
      forall u | 0 <= u < |s.modes| ensures s.modes[u] != Running(b) {
        assert ModeInv(s, u);
      }
      RunnersZero(s.modes, b);
    }
  }

  /** A pending close stays pending until it is done. */
  lemma StepPending(s: State, t: nat, b: nat)
    requires Inv(s) && Enabled(s, t) && b < |s.boxes|
    ensures AboutToFinish(s, b) ==> AboutToFinish(Step(s, t), b) || Step(s, t).boxes[b].once || !s.boxes[b].owned
  {
    if u :| 0 <= u < |s.modes| && (s.modes[u] == Drained(b) || s.modes[u] == Finish(b)) {
      assert u != t ==> Step(s, t).modes[u] == s.modes[u];
    }
  }

  lemma StepRetiring(s: State, t: nat, b: nat)
    requires Inv(s) && Enabled(s, t) && b < |s.boxes|
    ensures AboutToRetire(s, b) ==> AboutToRetire(Step(s, t), b) || Step(s, t).boxes[b].retired
  {
    if AboutToRetire(s, b) {
      assert ModeInv(s, s.mu.value) && ModeInv(s, t);
    }
  }

  lemma StepNewBox(s: State, t: nat, b: nat)
    requires Inv(s) && Enabled(s, t) && |s.boxes| <= b < |Step(s, t).boxes|
    ensures BoxInv(Step(s, t), b)
  {
    StepRunners(s, t, b);
    assert ModeInv(s, t);
  }

  lemma StepBooks(s: State, t: nat, b: nat)
    requires Inv(s) && Enabled(s, t) && b < |s.boxes|
    ensures BooksInv(Step(s, t), b)
  {
    StepRunners(s, t, b);
    assert ModeInv(s, t) && BoxInv(s, b);
    match s.modes[t]
    case Load(_) =>
    case Acquire(_) =>
    case Recheck(_) =>
    case Running(_) =>
    case PassingThrough(_) =>
    case Drained(_) =>
    case WantSwap(_) =>
    case WantClose =>
    case Retire(_) =>
    case Finish(_) =>
  }

  /** Whoever makes a box ready to be closed is the one to close it. */
  lemma StepPromise(s: State, t: nat, b: nat)
    requires Inv(s) && Enabled(s, t) && b < |s.boxes|
    ensures PromiseInv(Step(s, t), b)
  {
    var s' := Step(s, t);
    assert ModeInv(s, t) && BoxInv(s, b);
    StepPending(s, t, b);
    StepRetiring(s, t, b);
    match s.modes[t]
    case Running(x) =>
      if s.boxes[x].retired && s.boxes[x].inflight == 1 {
        assert s'.modes[t] == Drained(x);
      }
    case Retire(x) =>
      if s.boxes[x].inflight == 0 {
        assert s'.modes[t] == Finish(x);
      }
    case _ =>
  }

  lemma StepInv(s: State, t: nat)
    requires Inv(s) && Enabled(s, t)
    ensures Inv(Step(s, t))
  {
    var s' := Step(s, t);
    assert ModeInv(s, t);
    forall u | 0 <= u < |s'.modes| ensures ModeInv(s', u) {
      if u == t {
        StepOwnMode(s, t);
      } else {
        StepOtherMode(s, t, u);
      }
    }
    forall b | 0 <= b < |s'.boxes| ensures BoxInv(s', b) {
      if b < |s.boxes| {
        StepBooks(s, t, b);
        StepPromise(s, t, b);
      } else {
        StepNewBox(s, t, b);
      }
    }
    if s.mu.Some? {
      assert ModeInv(s, s.mu.value);
    }
  }

  // -------------------------------------------------------------------- runs

  /** A schedule; a thread that cannot move passes its turn. */
  function Run(s: State, schedule: seq<nat>): State
    decreases |schedule|
  {
    if schedule == [] then s
    else Run(if Enabled(s, schedule[0]) then Step(s, schedule[0]) else s, schedule[1..])
  }

  lemma {:induction false} RunInv(s: State, schedule: seq<nat>)
    requires Inv(s)
    ensures Inv(Run(s, schedule))
    decreases |schedule|
  {
    if schedule != [] {
      if Enabled(s, schedule[0]) {
        StepInv(s, schedule[0]);
        RunInv(Step(s, schedule[0]), schedule[1..]);
      } else {
        RunInv(s, schedule[1..]);
      }
    }
  }

  /** In every run of Allow, Swap and Close, whatever the schedule. */
  lemma EveryRunIsSafe(initial: int, calls: seq<Call>, schedule: seq<nat>)
    ensures AllRight(Run(Init(initial, calls), schedule))
  {
    InitInv(initial, calls);
    RunInv(Init(initial, calls), schedule);
    var s := Run(Init(initial, calls), schedule);
    forall b | 0 <= b < |s.boxes| ensures ClosedRightly(s, b) {
      assert BoxInv(s, b);
    }
    forall t | 0 <= t < |s.modes| ensures RunsRightly(s, s.modes[t]) {
      assert ModeInv(s, t);
      if s.modes[t].Running? {
        assert BoxInv(s, s.modes[t].b);
        RunnersPositive(s.modes, s.modes[t].b, t);
      }
    }
  }

  /**
   * A limiter is closed at most once, only when owned, retired and drained; the
   * borrowed first one never; a retired box is the current one only after Close.
   */
  predicate ClosedRightly(s: State, b: nat)
    requires b < |s.boxes|
  {
    var box := s.boxes[b];
    && box.closes <= 1
    && (box.closes == 1 ==> box.owned && box.retired && box.inflight == 0)
    && (b == 0 ==> !box.owned && box.closes == 0)
    && (box.retired && b == s.current ==> s.closed)
  }

  /** A call that acquired its box is not on a closed limiter; one that could not only runs after Close. */
  predicate RunsRightly(s: State, m: Mode) {
    match m
    case Running(b) => b < |s.boxes| && s.boxes[b].closes == 0
    case PassingThrough(b) => s.closed && b == s.current
    case _ => true
  }

  predicate AllRight(s: State) {
    && (forall b :: 0 <= b < |s.boxes| ==> ClosedRightly(s, b))
    && (forall t :: 0 <= t < |s.modes| ==> RunsRightly(s, s.modes[t]))
  }

  predicate Quiet(s: State) {
    forall t :: 0 <= t < |s.modes| ==> s.modes[t] == Done
  }

  /**
   * Once all calls have returned, nothing is left open or retired too early: each
   * owned limiter is closed, once, unless it is the current one and Close was
   * never called.
   */
  lemma EverythingIsClosedInTheEnd(initial: int, calls: seq<Call>, schedule: seq<nat>, b: nat)
    requires var s := Run(Init(initial, calls), schedule); Quiet(s) && b < |s.boxes|
    ensures var s := Run(Init(initial, calls), schedule);
            && (s.boxes[b].retired <==> b != s.current || s.closed)
            && s.boxes[b].closes == (if b > 0 && (b != s.current || s.closed) then 1 else 0)
            && s.boxes[b].inflight == 0
  {
    InitInv(initial, calls);
    RunInv(Init(initial, calls), schedule);
    var s := Run(Init(initial, calls), schedule);
    assert BoxInv(s, b) && BoxInv(s, s.current);
    RunnersZero(s.modes, b);
    if s.boxes[b].retired && b != s.current {
      assert b < s.current;
    }
  }

  // ---------------------------------------------------------------- limiters

  /** How often a limiter has been closed, whichever boxes it was in. */
  function TimesClosed(boxes: seq<Box>, limiter: int): nat {
    if boxes == [] then 0
    else (if boxes[0].limiter == limiter then boxes[0].closes else 0) + TimesClosed(boxes[1..], limiter)
  }

  predicate RunsOnOpenLimiter(s: State, b: nat) {
    b < |s.boxes| && TimesClosed(s.boxes, s.boxes[b].limiter) == 0
  }

  /**
   * The guarantees, said of limiters rather than of boxes: each is closed at most
   * once, the initial one never, and calls that hold their limiter, or can still
   * get hold of it, find it open.
   */
  ghost predicate Right(s: State, initial: int) {
    && (forall limiter :: TimesClosed(s.boxes, limiter) <= 1)
    && TimesClosed(s.boxes, initial) == 0
    && (forall t :: 0 <= t < |s.modes| && s.modes[t].Running? ==> RunsOnOpenLimiter(s, s.modes[t].b))
    && (s.current < |s.boxes| && !s.boxes[s.current].retired ==> RunsOnOpenLimiter(s, s.current))
  }

  predicate SwapsIn(calls: seq<Call>, i: nat, limiter: int) {
    i < |calls| && calls[i] == Swap(Some(limiter))
  }

  /**
   * What the calls have to observe: no limiter is handed to Swap twice, and the
   * initial one only if nothing will ever retire it again.
   */
  ghost predicate Fresh(initial: int, calls: seq<Call>) {
    && (forall i: nat, j: nat, l: int, m: int :: SwapsIn(calls, i, l) && SwapsIn(calls, j, m) && i != j ==> l != m && l != initial)
    && (forall i: nat :: SwapsIn(calls, i, initial) ==> Close !in calls)
  }

  lemma {:induction false} OneBoxCloses(boxes: seq<Box>, b: nat)
    requires b < |boxes| && forall i :: 0 <= i < |boxes| && i != b ==> boxes[i].limiter != boxes[b].limiter
    ensures TimesClosed(boxes, boxes[b].limiter) == boxes[b].closes
  {
    if b == 0 {
      NoBoxCloses(boxes[1..], boxes[0].limiter);
    } else {
      assert boxes[0].limiter != boxes[b].limiter;
      OneBoxCloses(boxes[1..], b - 1);
    }
  }

  lemma {:induction false} NoBoxCloses(boxes: seq<Box>, limiter: int)
    requires forall i :: 0 <= i < |boxes| && boxes[i].limiter == limiter ==> boxes[i].closes == 0
    ensures TimesClosed(boxes, limiter) == 0
  {
    if boxes != [] {
      NoBoxCloses(boxes[1..], limiter);
    }
  }

  // ------------------------------------------------ which call brought a box

  /** A call that has not begun is still at its start. */
  predicate ComesFrom(calls: seq<Call>, s: State, t: nat)
    requires t < |calls| && t < |s.modes|
  {
    && (s.modes[t].WantSwap? ==> calls[t] == Swap(s.modes[t].next))
    && (s.modes[t].WantClose? ==> calls[t] == Close)
  }

  /** origin names the call of Swap behind each box but the first. */
  ghost predicate Traced(initial: int, calls: seq<Call>, s: State, origin: seq<nat>) {
    && |calls| == |s.modes| && |origin| == |s.boxes| > 0 && s.boxes[0].limiter == initial
    && (forall t :: 0 <= t < |calls| ==> ComesFrom(calls, s, t))
    && (forall b :: 0 < b < |origin| ==> BroughtBy(calls, s, b, origin[b]))
    && (forall b, c :: 0 < b < c < |origin| ==> origin[b] != origin[c])
    && (s.closed ==> Close in calls)
  }

  predicate BroughtBy(calls: seq<Call>, s: State, b: nat, t: nat) {
    && b < |s.boxes| && t < |s.modes| && SwapsIn(calls, t, s.boxes[b].limiter)
    && !s.modes[t].WantSwap?
  }

  lemma InitTraced(initial: int, calls: seq<Call>)
    ensures Traced(initial, calls, Init(initial, calls), [0])
  {
  }

  lemma StepTraced(initial: int, calls: seq<Call>, s: State, t: nat, origin: seq<nat>) returns (origin': seq<nat>)
    requires Traced(initial, calls, s, origin) && Inv(s) && Enabled(s, t)
    ensures Traced(initial, calls, Step(s, t), origin')
  {
    var s' := Step(s, t);
    StepOthers(s, t);
    origin' := if |s'.boxes| > |s.boxes| then origin + [t] else origin;
    assert ComesFrom(calls, s, t);
    forall b | 0 <= b < |s.boxes| ensures s'.boxes[b].limiter == s.boxes[b].limiter {
      StepKeepsRetired(s, t, b);
    }
    forall u | 0 <= u < |calls| ensures ComesFrom(calls, s', u) {
      assert ComesFrom(calls, s, u);
    }
    forall b | 0 < b < |origin'| ensures BroughtBy(calls, s', b, origin'[b]) {
      assert b < |origin| ==> BroughtBy(calls, s, b, origin[b]);
    }
    forall b, c | 0 < b < c < |origin'| ensures origin'[b] != origin'[c] {
      assert BroughtBy(calls, s, b, origin[b]);
    }
  }

  lemma {:induction false} RunTraced(initial: int, calls: seq<Call>, s: State, schedule: seq<nat>, origin: seq<nat>) returns (origin': seq<nat>)
    requires Traced(initial, calls, s, origin) && Inv(s)
    ensures Traced(initial, calls, Run(s, schedule), origin') && Inv(Run(s, schedule))
    decreases |schedule|
  {
    if schedule == [] {
      origin' := origin;
    } else if Enabled(s, schedule[0]) {
      origin' := StepTraced(initial, calls, s, schedule[0], origin);
      StepInv(s, schedule[0]);
      origin' := RunTraced(initial, calls, Step(s, schedule[0]), schedule[1..], origin');
    } else {
      origin' := RunTraced(initial, calls, s, schedule[1..], origin);
    }
  }

  /** Of two boxes that swaps have brought, neither has the limiter of the other or the initial one. */
  lemma OtherLimiter(initial: int, calls: seq<Call>, s: State, origin: seq<nat>, b: nat, c: nat)
    requires Traced(initial, calls, s, origin) && Fresh(initial, calls)
    requires 0 < b < |s.boxes| && 0 < c < |s.boxes| && b != c
    ensures s.boxes[b].limiter != s.boxes[c].limiter && s.boxes[b].limiter != initial
  {
    assert BroughtBy(calls, s, b, origin[b]) && BroughtBy(calls, s, c, origin[c]);
    assert origin[b] != origin[c];
  }

  /** Boxes with one limiter: only the first and a second that nothing can retire. */
  lemma SameLimiter(initial: int, calls: seq<Call>, s: State, origin: seq<nat>, b: nat, c: nat)
    requires Traced(initial, calls, s, origin) && Inv(s) && Fresh(initial, calls)
    requires b < c < |s.boxes| && s.boxes[b].limiter == s.boxes[c].limiter
    ensures b == 0 && c == 1 && |s.boxes| == 2 && s.boxes[1].closes == 0
  {
    assert BroughtBy(calls, s, c, origin[c]) && BoxInv(s, c);
    if b > 0 {
      OtherLimiter(initial, calls, s, origin, b, c);
    } else if |s.boxes| > 2 {
      OtherLimiter(initial, calls, s, origin, c, if c == 1 then 2 else 1);
    }
  }

  /** How often the limiter of a box has been closed: as often as the box says. */
  lemma CountsAgree(initial: int, calls: seq<Call>, s: State, origin: seq<nat>, b: nat)
    requires Traced(initial, calls, s, origin) && Inv(s) && Fresh(initial, calls) && b < |s.boxes|
    ensures TimesClosed(s.boxes, s.boxes[b].limiter) == s.boxes[b].closes
  {
    assert BoxInv(s, 0);
    if c :| 0 <= c < |s.boxes| && c != b && s.boxes[c].limiter == s.boxes[b].limiter {
      if b < c {
        SameLimiter(initial, calls, s, origin, b, c);
      } else {
        SameLimiter(initial, calls, s, origin, c, b);
      }
      NoBoxCloses(s.boxes, s.boxes[b].limiter);
    } else {
      OneBoxCloses(s.boxes, b);
    }
  }

  lemma FreshIsRight(initial: int, calls: seq<Call>, schedule: seq<nat>)
    requires Fresh(initial, calls)
    ensures Right(Run(Init(initial, calls), schedule), initial)
  {
    InitInv(initial, calls);
    InitTraced(initial, calls);
    var origin := RunTraced(initial, calls, Init(initial, calls), schedule, [0]);
    var s := Run(Init(initial, calls), schedule);
    forall limiter ensures TimesClosed(s.boxes, limiter) <= 1 {
      if b :| 0 <= b < |s.boxes| && s.boxes[b].limiter == limiter {
        CountsAgree(initial, calls, s, origin, b);
        assert BoxInv(s, b);
      } else {
        NoBoxCloses(s.boxes, limiter);
      }
    }
    CountsAgree(initial, calls, s, origin, 0);
    CountsAgree(initial, calls, s, origin, s.current);
    assert BoxInv(s, 0) && BoxInv(s, s.current);
    forall t | 0 <= t < |s.modes| && s.modes[t].Running? ensures RunsOnOpenLimiter(s, s.modes[t].b) {
      var b := s.modes[t].b;
      assert ModeInv(s, t) && BoxInv(s, b);
      RunnersPositive(s.modes, b, t);
      CountsAgree(initial, calls, s, origin, b);
    }
  }

  /** A swap that nobody interrupts, while no call is in flight. */
  lemma UninterruptedSwap(s: State, t: nat, limiter: int)
    requires Inv(s) && Enabled(s, t) && s.modes[t] == WantSwap(Some(limiter)) && !s.closed
    requires s.boxes[s.current].inflight == 0
    ensures Run(s, [t, t, t]) ==
            State(s.boxes[s.current := Finished(s.boxes[s.current].(retired := true))] + [Box(limiter, true, 0, false, false, 0)],
                  |s.boxes|, false, None, s.modes[t := Done])
  {
    var s1 := Step(s, t);
    var s2 := Step(s1, t);
    var s3 := Step(s2, t);
    assert Run(s, [t, t, t]) == Run(s1, [t, t]) == Run(s2, [t]) == Run(s3, []);
    assert s3.modes == s.modes[t := Done];
  }

  /** Handing Swap the limiter that is current already closes it, and later calls run on it. */
  lemma SwappingInTheCurrentLimiterClosesIt(s: State, t: nat)
    requires Inv(s) && Enabled(s, t) && !s.closed
    requires s.boxes[s.current].inflight == 0 && s.boxes[s.current].owned
    requires s.modes[t] == WantSwap(Some(s.boxes[s.current].limiter))
    ensures var s' := Run(s, [t, t, t]);
            && s'.current < |s'.boxes| && !s'.boxes[s'.current].retired
            && !RunsOnOpenLimiter(s', s'.current)
  {
    UninterruptedSwap(s, t, s.boxes[s.current].limiter);
    var s' := Run(s, [t, t, t]);
    assert BoxInv(s, s.current);
    BoxCounts(s'.boxes, s.current);
  }

  lemma {:induction false} BoxCounts(boxes: seq<Box>, b: nat)
    requires b < |boxes|
    ensures TimesClosed(boxes, boxes[b].limiter) >= boxes[b].closes
  {
    if b > 0 {
      BoxCounts(boxes[1..], b - 1);
    }
  }

  /** A Close that nobody interrupts, while no call is in flight. */
  lemma UninterruptedClose(s: State, t: nat)
    requires Inv(s) && Enabled(s, t) && s.modes[t] == WantClose && s.boxes[s.current].inflight == 0
    ensures Run(s, [t, t, t]).boxes == s.boxes[s.current := Finished(s.boxes[s.current].(retired := true))]
  {
    var s1 := Step(s, t);
    var s2 := Step(s1, t);
    var s3 := Step(s2, t);
    assert Run(s, [t, t, t]) == Run(s1, [t, t]) == Run(s2, [t]) == Run(s3, []);
  }

  lemma {:induction false} RunAppend(s: State, first: seq<nat>, more: seq<nat>)
    ensures Run(s, first + more) == Run(Run(s, first), more)
    decreases |first|
  {
    if first == [] {
      assert first + more == more;
    } else {
      assert (first + more)[1..] == first[1..] + more;
      RunAppend(if Enabled(s, first[0]) then Step(s, first[0]) else s, first[1..], more);
    }
  }

  /** The state after one swap of an idle limiter: the box it brought is current and unharmed. */
  lemma FirstSwap(initial: int, calls: seq<Call>, i: nat, limiter: int)
    requires SwapsIn(calls, i, limiter)
    ensures var s := Run(Init(initial, calls), [i, i, i]);
            && Inv(s) && !s.closed && s.mu == None && s.modes == Init(initial, calls).modes[i := Done]
            && s.current == 1 && |s.boxes| == 2 && s.boxes[1] == Box(limiter, true, 0, false, false, 0)
  {
    InitInv(initial, calls);
    UninterruptedSwap(Init(initial, calls), i, limiter);
    RunInv(Init(initial, calls), [i, i, i]);
  }

  /** Handing one limiter to Swap twice closes it under the calls that follow. */
  lemma SameLimiterTwiceIsWrong(initial: int, calls: seq<Call>, i: nat, j: nat, limiter: int)
    requires i != j && SwapsIn(calls, i, limiter) && SwapsIn(calls, j, limiter)
    ensures !Right(Run(Init(initial, calls), [i, i, i] + [j, j, j]), initial)
  {
    FirstSwap(initial, calls, i, limiter);
    SwappingInTheCurrentLimiterClosesIt(Run(Init(initial, calls), [i, i, i]), j);
    RunAppend(Init(initial, calls), [i, i, i], [j, j, j]);
  }

  /** The initial limiter, swapped in and then out again or closed, has been closed. */
  lemma InitialSwappedInIsWrong(initial: int, calls: seq<Call>, i: nat, j: nat)
    requires i != j && SwapsIn(calls, i, initial) && j < |calls|
    requires calls[j] == Close || (calls[j].Swap? && calls[j].next.Some?)
    ensures !Right(Run(Init(initial, calls), [i, i, i] + [j, j, j]), initial)
  {
    FirstSwap(initial, calls, i, initial);
    var s := Run(Init(initial, calls), [i, i, i]);
    if calls[j] == Close {
      UninterruptedClose(s, j);
    } else {
      UninterruptedSwap(s, j, calls[j].next.value);
    }
    RunAppend(Init(initial, calls), [i, i, i], [j, j, j]);
    BoxCounts(Run(s, [j, j, j]).boxes, 1);
  }

  /** It takes no more than two swaps in a row. */
  lemma SwappingTwiceSuffices()
    ensures !Right(Run(Init(0, [Swap(Some(1)), Swap(Some(1))]), [0, 0, 0] + [1, 1, 1]), 0)
  {
    SameLimiterTwiceIsWrong(0, [Swap(Some(1)), Swap(Some(1))], 0, 1, 1);
  }

  /**
   * The guarantees hold of limiters, in every run, if and only if the calls hand
   * over fresh limiters: none twice, and the initial one only where no other swap
   * and no Close can retire it.
   */
  lemma LimitersAreRightExactly(initial: int, calls: seq<Call>)
    ensures (forall schedule :: Right(Run(Init(initial, calls), schedule), initial)) <==> Fresh(initial, calls)
  {
    if Fresh(initial, calls) {
      forall schedule ensures Right(Run(Init(initial, calls), schedule), initial) {
        FreshIsRight(initial, calls, schedule);
      }
    } else if i: nat, j: nat, l, m :| SwapsIn(calls, i, l) && SwapsIn(calls, j, m) && i != j && (l == m || l == initial) {
      if l == m {
        SameLimiterTwiceIsWrong(initial, calls, i, j, l);
      } else {
        InitialSwappedInIsWrong(initial, calls, i, j);
      }
    } else {
      var i: nat :| SwapsIn(calls, i, initial) && Close in calls;
      var j :| 0 <= j < |calls| && calls[j] == Close;
      InitialSwappedInIsWrong(initial, calls, i, j);
    }
  }

  // ---------------------------------------------------------------- progress

  /** The state in which call t is over. */
  function WithoutCall(s: State, t: nat): State
    requires t < |s.modes|
  {
    s.(modes := s.modes[t := Done])
  }

  predicate IsRejected(s: State, t: nat) {
    t < |s.modes| && s.modes[t].WantSwap? && (s.modes[t].next == None || s.closed)
  }

  lemma StepWithoutCall(s: State, t: nat, u: nat)
    requires IsRejected(s, t) && u != t
    ensures Enabled(WithoutCall(s, t), u) <==> Enabled(s, u)
    ensures Enabled(s, u) ==> IsRejected(Step(s, u), t) && Step(WithoutCall(s, t), u) == WithoutCall(Step(s, u), t)
  {
    if Enabled(s, u) {
      StepOthers(s, u);
      StepOthers(WithoutCall(s, t), u);
      assert Step(WithoutCall(s, t), u).modes == WithoutCall(Step(s, u), t).modes;
    }
  }

  /** A swap without a limiter, or after Close, might as well not be there: all others run as if it were over. */
  lemma {:induction false} RejectedSwapDisturbsNobody(s: State, t: nat, schedule: seq<nat>)
    requires IsRejected(s, t)
    ensures |Run(s, schedule).modes| == |s.modes|
    ensures WithoutCall(Run(s, schedule), t) == Run(WithoutCall(s, t), schedule)
    decreases |schedule|
  {
    if schedule != [] {
      var u, rest := schedule[0], schedule[1..];
      if u != t {
        StepWithoutCall(s, t, u);
        RejectedSwapDisturbsNobody(if Enabled(s, u) then Step(s, u) else s, t, rest);
      } else if Enabled(s, t) {
        assert Step(s, t) == WithoutCall(s, t);
        DoneStays(WithoutCall(s, t), t, rest);
      } else {
        RejectedSwapDisturbsNobody(s, t, rest);
      }
    }
  }

  lemma {:induction false} DoneStays(s: State, t: nat, schedule: seq<nat>)
    requires t < |s.modes| && s.modes[t] == Done
    ensures |Run(s, schedule).modes| == |s.modes| && Run(s, schedule).modes[t] == Done
    decreases |schedule|
  {
    if schedule != [] {
      var u := schedule[0];
      if Enabled(s, u) {
        StepOthers(s, u);
      }
      DoneStays(if Enabled(s, u) then Step(s, u) else s, t, schedule[1..]);
    }
  }

  /** Whoever holds mu can move, so nobody waits for it in vain. */
  lemma SomeThreadMoves(s: State, t: nat)
    requires Inv(s) && t < |s.modes| && s.modes[t] != Done
    ensures Enabled(s, t) || (s.mu.Some? && Enabled(s, s.mu.value))
  {
    assert ModeInv(s, t);
    if s.mu.Some? {
      assert ModeInv(s, s.mu.value);
    }
    if s.modes[t].Running? {
      assert BoxInv(s, s.modes[t].b);
      RunnersPositive(s.modes, s.modes[t].b, t);
    }
  }

  function SwapsLeft(modes: seq<Mode>): nat {
    if modes == [] then 0 else (if modes[0].WantSwap? then 1 else 0) + SwapsLeft(modes[1..])
  }

  /** How far a call has to go when there will be at most total boxes. */
  function Ahead(total: nat, m: Mode): nat {
    match m
    case Load(b) => if b <= total then 4 * (total - b) + 5 else 0
    case Acquire(b) => if b <= total then 4 * (total - b) + 4 else 0
    case Recheck(b) => if b <= total then 4 * (total - b) + 3 else 0
    case WantSwap(_) => 3
    case WantClose => 3
    case Running(_) => 2
    case Retire(_) => 2
    case PassingThrough(_) => 1
    case Drained(_) => 1
    case Finish(_) => 1
    case Done => 0
  }

  function AllAhead(total: nat, modes: seq<Mode>): nat {
    if modes == [] then 0 else Ahead(total, modes[0]) + AllAhead(total, modes[1..])
  }

  lemma {:induction false} AheadUpdate(total: nat, modes: seq<Mode>, t: nat, m: Mode)
    requires t < |modes|
    ensures AllAhead(total, modes[t := m]) + Ahead(total, modes[t]) == AllAhead(total, modes) + Ahead(total, m)
    ensures SwapsLeft(modes[t := m]) + (if modes[t].WantSwap? then 1 else 0)
            == SwapsLeft(modes) + (if m.WantSwap? then 1 else 0)
  {
    var modes' := modes[t := m];
    if t == 0 {
      assert modes'[1..] == modes[1..];
    } else {
      assert modes'[1..] == modes[1..][t - 1 := m];
      AheadUpdate(total, modes[1..], t - 1, m);
    }
  }

  predicate BoxesBounded(total: nat, s: State) {
    |s.boxes| + SwapsLeft(s.modes) <= total
  }

  /** A call tries again only after a Swap it had not seen, and swaps run out. */
  lemma StepLowers(total: nat, s: State, t: nat)
    requires Inv(s) && Enabled(s, t) && BoxesBounded(total, s)
    ensures BoxesBounded(total, Step(s, t))
    ensures AllAhead(total, Step(s, t).modes) < AllAhead(total, s.modes)
  {
    StepOthers(s, t);
    AheadUpdate(total, s.modes, t, Step(s, t).modes[t]);
    assert ModeInv(s, t);
  }

  function Moves(s: State, schedule: seq<nat>): nat
    decreases |schedule|
  {
    if schedule == [] then 0
    else if Enabled(s, schedule[0]) then 1 + Moves(Step(s, schedule[0]), schedule[1..])
    else Moves(s, schedule[1..])
  }

  lemma {:induction false} MovesBounded(total: nat, s: State, schedule: seq<nat>)
    requires Inv(s) && BoxesBounded(total, s)
    ensures Moves(s, schedule) <= AllAhead(total, s.modes)
    decreases |schedule|
  {
    if schedule != [] {
      if Enabled(s, schedule[0]) {
        StepInv(s, schedule[0]);
        StepLowers(total, s, schedule[0]);
        MovesBounded(total, Step(s, schedule[0]), schedule[1..]);
      } else {
        MovesBounded(total, s, schedule[1..]);
      }
    }
  }

  lemma {:induction false} StartAhead(total: nat, modes: seq<Mode>)
    requires forall t :: 0 <= t < |modes| ==> modes[t] == Load(0) || modes[t].WantSwap? || modes[t] == WantClose
    ensures AllAhead(total, modes) <= |modes| * (4 * total + 5) && SwapsLeft(modes) <= |modes|
  {
    if modes != [] {
      StartAhead(total, modes[1..]);
    }
  }

  /** The retry loop of use never spins for ever: n calls take no more steps than this. */
  lemma EveryRunEnds(initial: int, calls: seq<Call>, schedule: seq<nat>)
    ensures Moves(Init(initial, calls), schedule) <= |calls| * (4 * |calls| + 9)
  {
    var s := Init(initial, calls);
    InitInv(initial, calls);
    StartAhead(|calls| + 1, s.modes);
    MovesBounded(|calls| + 1, s, schedule);
  }
}
