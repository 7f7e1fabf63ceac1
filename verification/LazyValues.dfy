/**
 * Where the results of lazy.get come from: the value is what the one successful
 * build returned, and an error or a panic is that of a flight the call was on.
 */
module LazyValues {
  import opened Basics
  import opened Lazy

  /** The builder of a flight has ended, in the way it has. */
  datatype Built = Built(flight: nat, exit: Exit)

  /** One choice of the schedule, taken or passed over. */
  function Next(s: State, t: nat, exit: Exit): State {
    if Enabled(s, t) then Step(s, t, exit) else s
  }

  function BuildNow(s: State, t: nat, exit: Exit): seq<Built> {
    if Enabled(s, t) && s.threads[t].Leading? && s.threads[t].stage.Build? then [Built(s.threads[t].flight, exit)] else []
  }

  /** All builds of a run, in order. */
  function Builds(s: State, schedule: seq<(nat, Exit)>): seq<Built>
    decreases |schedule|
  {
    if schedule == [] then []
    else
      var (t, exit) := schedule[0];
      BuildNow(s, t, exit) + Builds(Next(s, t, exit), schedule[1..])
  }

  /** The values that builders have returned. */
  function ValuesOf(log: seq<Built>): seq<int> {
    if log == [] then []
    else
      var last := log[|log| - 1];
      ValuesOf(log[..|log| - 1]) + if last.exit.Returns? then [last.exit.v] else []
  }

  /** The flight the call is on, leading it or waiting for it. */
  function FlightNow(s: State, u: nat): set<nat> {
    if u < |s.threads| && OnFlight(s.threads[u]) then {s.threads[u].flight} else {}
  }

  /** All flights that call u is on at some moment of a run. */
  function FlightsOf(s: State, schedule: seq<(nat, Exit)>, u: nat): set<nat>
    decreases |schedule|
  {
    if schedule == [] then FlightNow(s, u)
    else
      var (t, exit) := schedule[0];
      FlightNow(s, u) + FlightsOf(Next(s, t, exit), schedule[1..], u)
  }

  /** r is how the builder of flight f ended. */
  predicate ComesFrom(log: seq<Built>, f: nat, r: Res) {
    match r
    case Value(v) => Built(f, Returns(v)) in log
    case Error(e) => Built(f, Fails(e)) in log
    case BuildPanicError(p) => Built(f, Panics(p)) in log
  }

  // --------------------------------------------------------------- invariant

  /** The value of the build under way, once it has one, or of the cell. */
  function ValuesNow(s: State): seq<int> {
    if s.done then [s.val]
    else if s.cur.Some? && s.cur.value < |s.flights| && s.flights[s.cur.value].leader < |s.threads| then
      match s.threads[s.flights[s.cur.value].leader]
      case Leading(_, WantCleanup(exit)) => if exit.Returns? then [exit.v] else []
      case Leading(_, SetVal(v)) => [v]
      case Leading(_, SetDone(v)) => [v]
      case _ => []
    else []
  }

  predicate StageOk(log: seq<Built>, f: nat, stage: Stage) {
    match stage
    case Build => forall i :: 0 <= i < |log| ==> log[i].flight != f
    case WantCleanup(e) => Built(f, e) in log
    case SetVal(v) => Built(f, Returns(v)) in log
    case SetDone(v) => Built(f, Returns(v)) in log
    case SetReady(v) => Built(f, Returns(v)) in log
    case Settle(e) => Built(f, e) in log
    case Unlock(e) => Built(f, e) in log
    case CloseDone(e) => Built(f, e) in log
  }

  predicate LeaderOk(log: seq<Built>, pc: PC) {
    pc.Leading? ==> StageOk(log, pc.flight, pc.stage)
  }

  predicate FlightOk(s: State, log: seq<Built>, f: nat)
    requires f < |s.flights|
  {
    s.flights[f].settled ==> ComesFrom(log, f, s.flights[f].result)
  }

  predicate BuiltOk(s: State, log: seq<Built>, i: nat)
    requires i < |log|
  {
    log[i].flight < |s.flights| && forall j :: i < j < |log| ==> log[i].flight != log[j].flight
  }

  ghost predicate Traced(s: State, log: seq<Built>) {
    && ValuesOf(log) == ValuesNow(s)
    && (forall t :: 0 <= t < |s.threads| ==> LeaderOk(log, s.threads[t]))
    && (forall f :: 0 <= f < |s.flights| ==> FlightOk(s, log, f))
    && (forall i :: 0 <= i < |log| ==> BuiltOk(s, log, i))
  }

  /** What a call has returned is a value, or came from a flight it was on. */
  ghost predicate CallOk(s: State, log: seq<Built>, past: set<nat>, u: nat) {
    u < |s.threads| ==>
      && (OnFlight(s.threads[u]) ==> s.threads[u].flight in past)
      && (s.threads[u].Returned? && !s.threads[u].result.Value? ==>
            exists f :: f in past && ComesFrom(log, f, s.threads[u].result))
  }

  lemma ValuesOfMore(log: seq<Built>, b: Built)
    ensures ValuesOf(log + [b]) == ValuesOf(log) + if b.exit.Returns? then [b.exit.v] else []
  {
    assert (log + [b])[..|log|] == log;
  }

  lemma BuildStep(s: State, log: seq<Built>, t: nat, exit: Exit)
    requires Inv(s) && Traced(s, log) && Enabled(s, t) && s.threads[t].Leading? && s.threads[t].stage.Build?
    ensures Traced(Step(s, t, exit), log + BuildNow(s, t, exit))
  {
    var s', f, b := Step(s, t, exit), s.threads[t].flight, Built(s.threads[t].flight, exit);
    var log' := log + [b];
    assert ThreadOk(s, t) && LeaderOk(log, s.threads[t]);
    ValuesOfMore(log, b);
    forall u | 0 <= u < |s'.threads| ensures LeaderOk(log', s'.threads[u]) {
      assert ThreadOk(s, u) && LeaderOk(log, s.threads[u]);
    }
    forall g | 0 <= g < |s'.flights| ensures FlightOk(s', log', g) {
      assert FlightOk(s, log, g);
    }
    forall i | 0 <= i < |log'| ensures BuiltOk(s', log', i) {
      if i < |log| {
        assert BuiltOk(s, log, i);
      }
    }
  }

  /** A step that builds nothing leaves the list of builds as it is. */
  lemma OtherStep(s: State, log: seq<Built>, t: nat, exit: Exit)
    requires Inv(s) && Traced(s, log) && Enabled(s, t) && !(s.threads[t].Leading? && s.threads[t].stage.Build?)
    ensures Traced(Step(s, t, exit), log)
  {
    var s' := Step(s, t, exit);
    assert ThreadOk(s, t);
    OtherStepValues(s, log, t, exit);
    forall u | 0 <= u < |s'.threads| ensures LeaderOk(log, s'.threads[u]) {
      OtherStepLeader(s, log, t, exit, u);
    }
    forall g | 0 <= g < |s'.flights| ensures FlightOk(s', log, g) {
      OtherStepFlight(s, log, t, exit, g);
    }
    forall i | 0 <= i < |log| ensures BuiltOk(s', log, i) {
      assert BuiltOk(s, log, i);
      StepMovesOne(s, t, exit);
    }
  }

  lemma OtherStepValues(s: State, log: seq<Built>, t: nat, exit: Exit)
    requires Inv(s) && Traced(s, log) && Enabled(s, t) && !(s.threads[t].Leading? && s.threads[t].stage.Build?)
    ensures ValuesNow(Step(s, t, exit)) == ValuesNow(s)
    ensures |s.flights| <= |Step(s, t, exit).flights|
  {
    assert ThreadOk(s, t);
    if s.cur.Some? {
      assert FlightInv(s, s.cur.value);
    }
  }

  lemma OtherStepLeader(s: State, log: seq<Built>, t: nat, exit: Exit, u: nat)
    requires Inv(s) && Traced(s, log) && Enabled(s, t) && !(s.threads[t].Leading? && s.threads[t].stage.Build?)
    requires u < |s.threads|
    ensures LeaderOk(log, Step(s, t, exit).threads[u])
  {
    StepMovesOne(s, t, exit);
    assert LeaderOk(log, s.threads[u]);
    if s.threads[t].Locked? {
      forall i | 0 <= i < |log| ensures log[i].flight != |s.flights| {
        assert BuiltOk(s, log, i);
      }
    }
  }

  lemma OtherStepFlight(s: State, log: seq<Built>, t: nat, exit: Exit, g: nat)
    requires Inv(s) && Traced(s, log) && Enabled(s, t) && !(s.threads[t].Leading? && s.threads[t].stage.Build?)
    requires g < |Step(s, t, exit).flights|
    ensures FlightOk(Step(s, t, exit), log, g)
  {
    assert LeaderOk(log, s.threads[t]);
    assert g < |s.flights| ==> FlightOk(s, log, g);
  }

  lemma StepTraced(s: State, log: seq<Built>, t: nat, exit: Exit)
    requires Inv(s) && Traced(s, log) && Enabled(s, t)
    ensures Traced(Step(s, t, exit), log + BuildNow(s, t, exit))
  {
    if s.threads[t].Leading? && s.threads[t].stage.Build? {
      BuildStep(s, log, t, exit);
    } else {
      OtherStep(s, log, t, exit);
      assert log + [] == log;
    }
  }

  lemma StepCallOk(s: State, log: seq<Built>, past: set<nat>, t: nat, exit: Exit, u: nat)
    requires Inv(s) && Traced(s, log) && Enabled(s, t) && CallOk(s, log, past, u)
    ensures var s' := Step(s, t, exit); CallOk(s', log + BuildNow(s, t, exit), past + FlightNow(s', u), u)
  {
    var s', log' := Step(s, t, exit), log + BuildNow(s, t, exit);
    StepMovesOne(s, t, exit);
    if u < |s.threads| && s'.threads[u].Returned? && !s'.threads[u].result.Value? {
      if u == t {
        assert ThreadOk(s, t) && LeaderOk(log, s.threads[t]);
        var f := s.threads[t].flight;
        assert FlightOk(s, log, f);
        assert f in past && ComesFrom(log', f, s'.threads[u].result);
      } else {
        var f :| f in past && ComesFrom(log, f, s.threads[u].result);
        assert ComesFrom(log', f, s'.threads[u].result);
      }
    }
  }

  lemma NextTraced(s: State, t: nat, exit: Exit, log: seq<Built>)
    requires Inv(s) && Traced(s, log)
    ensures Inv(Next(s, t, exit)) && Traced(Next(s, t, exit), log + BuildNow(s, t, exit))
  {
    if Enabled(s, t) {
      StepInv(s, t, exit);
      StepTraced(s, log, t, exit);
    } else {
      assert log + [] == log;
    }
  }

  lemma RunUnfolds(s: State, schedule: seq<(nat, Exit)>, log: seq<Built>)
    requires schedule != []
    ensures var next, now := Next(s, schedule[0].0, schedule[0].1), BuildNow(s, schedule[0].0, schedule[0].1);
            && Run(s, schedule) == Run(next, schedule[1..])
            && log + Builds(s, schedule) == (log + now) + Builds(next, schedule[1..])
  {
    var next, now := Next(s, schedule[0].0, schedule[0].1), BuildNow(s, schedule[0].0, schedule[0].1);
    PlusAssociates(log, now, Builds(next, schedule[1..]));
  }

  lemma {:induction false} RunTraced(s: State, schedule: seq<(nat, Exit)>, log: seq<Built>)
    requires Inv(s) && Traced(s, log)
    ensures Traced(Run(s, schedule), log + Builds(s, schedule))
    decreases |schedule|
  {
    if schedule == [] {
      assert log + [] == log;
    } else {
      RunUnfolds(s, schedule, log);
      NextTraced(s, schedule[0].0, schedule[0].1, log);
      RunTraced(Next(s, schedule[0].0, schedule[0].1), schedule[1..], log + BuildNow(s, schedule[0].0, schedule[0].1));
    }
  }

  lemma NextCallOk(s: State, t: nat, exit: Exit, log: seq<Built>, past: set<nat>, u: nat)
    requires Inv(s) && Traced(s, log) && CallOk(s, log, past, u)
    ensures CallOk(Next(s, t, exit), log + BuildNow(s, t, exit), past + FlightNow(Next(s, t, exit), u), u)
  {
    if Enabled(s, t) {
      StepCallOk(s, log, past, t, exit, u);
    } else {
      assert log + [] == log;
      assert past + FlightNow(s, u) == past;
    }
  }

  lemma FlightsUnfold(s: State, schedule: seq<(nat, Exit)>, past: set<nat>, u: nat)
    requires schedule != [] && FlightNow(s, u) <= past
    ensures var next := Next(s, schedule[0].0, schedule[0].1);
            past + FlightsOf(s, schedule, u) == (past + FlightNow(next, u)) + FlightsOf(next, schedule[1..], u)
  {
    StartsHere(Next(s, schedule[0].0, schedule[0].1), schedule[1..], u);
  }

  lemma {:induction false} RunCallOk(s: State, schedule: seq<(nat, Exit)>, log: seq<Built>, past: set<nat>, u: nat)
    requires Inv(s) && Traced(s, log) && CallOk(s, log, past, u)
    ensures CallOk(Run(s, schedule), log + Builds(s, schedule), past + FlightsOf(s, schedule, u), u)
    decreases |schedule|
  {
    if schedule == [] {
      assert log + [] == log && past + FlightNow(s, u) == past;
    } else {
      var (t, exit) := schedule[0];
      RunUnfolds(s, schedule, log);
      FlightsUnfold(s, schedule, past, u);
      NextTraced(s, t, exit, log);
      NextCallOk(s, t, exit, log, past, u);
      RunCallOk(Next(s, t, exit), schedule[1..], log + BuildNow(s, t, exit), past + FlightNow(Next(s, t, exit), u), u);
    }
  }

  lemma {:induction false} StartsHere(s: State, schedule: seq<(nat, Exit)>, u: nat)
    ensures FlightNow(s, u) <= FlightsOf(s, schedule, u)
  {
  }

  lemma RunFromInit(n: nat, schedule: seq<(nat, Exit)>, u: nat)
    ensures Inv(Run(Init(n), schedule)) && Traced(Run(Init(n), schedule), Builds(Init(n), schedule))
    ensures CallOk(Run(Init(n), schedule), Builds(Init(n), schedule), FlightsOf(Init(n), schedule, u), u)
  {
    InitInv(n);
    RunInv(Init(n), schedule);
    RunTraced(Init(n), schedule, []);
    RunCallOk(Init(n), schedule, [], {}, u);
    assert [] + Builds(Init(n), schedule) == Builds(Init(n), schedule);
    assert {} + FlightsOf(Init(n), schedule, u) == FlightsOf(Init(n), schedule, u);
  }

  // ------------------------------------------------------------ what is proved

  /** What the cell holds, and every call that returns a value returns, is what the one build that succeeded returned. */
  lemma ValueIsTheBuilders(n: nat, schedule: seq<(nat, Exit)>, t: nat, v: int)
    requires var s := Run(Init(n), schedule);
             GetIfResolved(s) == Some(v) || (t < |s.threads| && s.threads[t] == Returned(Value(v)))
    ensures ValuesOf(Builds(Init(n), schedule)) == [v]
    ensures GetIfResolved(Run(Init(n), schedule)) == Some(v)
  {
    RunFromInit(n, schedule, t);
    var s := Run(Init(n), schedule);
    assert t < |s.threads| ==> ThreadOk(s, t);
  }

  /** An error or a panic that a call returns is that of the builder of a flight it led or waited for. */
  lemma ErrorsAreOfOwnFlights(n: nat, schedule: seq<(nat, Exit)>, t: nat, r: Res) returns (f: nat)
    requires var s := Run(Init(n), schedule); t < |s.threads| && s.threads[t] == Returned(r) && !r.Value?
    ensures f in FlightsOf(Init(n), schedule, t)
    ensures match r
            case Value(_) => true
            case Error(e) => Built(f, Fails(e)) in Builds(Init(n), schedule)
            case BuildPanicError(p) => Built(f, Panics(p)) in Builds(Init(n), schedule)
  {
    RunFromInit(n, schedule, t);
    f :| f in FlightsOf(Init(n), schedule, t) && ComesFrom(Builds(Init(n), schedule), f, r);
  }

  /** No flight is built twice. */
  lemma FlightsAreBuiltOnce(n: nat, schedule: seq<(nat, Exit)>, i: nat, j: nat)
    requires i < j < |Builds(Init(n), schedule)|
    ensures Builds(Init(n), schedule)[i].flight != Builds(Init(n), schedule)[j].flight
  {
    RunFromInit(n, schedule, 0);
    assert BuiltOk(Run(Init(n), schedule), Builds(Init(n), schedule), i);
  }
}
