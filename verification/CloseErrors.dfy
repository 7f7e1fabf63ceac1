/**
 * The error that Close of container/close.go returns: what each service's own
 * goroutine came to, or that it took too long, in the order of the services.
 */
module CloseErrors {
  import opened Basics
  import opened CloseHandoff

  // ----------------------------------------------------- how goroutines ended

  /** Goroutine g is back from closing its service, with this outcome. */
  datatype Ended = Ended(g: nat, outcome: Outcome)

  function EndedNow(services: seq<Service>, s: State, e: Event): seq<Ended> {
    if e.Finish? && Enabled(services, s, e) then [Ended(e.g, e.outcome)] else []
  }

  function Next(services: seq<Service>, s: State, e: Event): State {
    if Enabled(services, s, e) then Step(services, s, e) else s
  }

  /** All goroutines that end in a run, in order. */
  function Endings(services: seq<Service>, s: State, schedule: seq<Event>): seq<Ended>
    decreases |schedule|
  {
    if schedule == [] then []
    else EndedNow(services, s, schedule[0]) + Endings(services, Next(services, s, schedule[0]), schedule[1..])
  }

  function OutcomesOf(log: seq<Ended>, g: nat): seq<Outcome> {
    if log == [] then []
    else
      var last := log[|log| - 1];
      OutcomesOf(log[..|log| - 1], g) + if last.g == g then [last.outcome] else []
  }

  lemma OutcomesOfMore(log: seq<Ended>, e: Ended, g: nat)
    ensures OutcomesOf(log + [e], g) == OutcomesOf(log, g) + if e.g == g then [e.outcome] else []
  {
    assert (log + [e])[..|log|] == log;
  }

  /** A goroutine carries the one outcome it ended with. */
  predicate GoroutineOk(s: State, log: seq<Ended>, g: nat) {
    if g >= |s.goroutines| then OutcomesOf(log, g) == []
    else match s.goroutines[g].phase
      case Closing => OutcomesOf(log, g) == []
      case Reporting(o) => OutcomesOf(log, g) == [o]
      case Exited(o) => OutcomesOf(log, g) == [o]
  }

  ghost predicate Traced(s: State, log: seq<Ended>) {
    forall g: nat :: GoroutineOk(s, log, g)
  }

  lemma NextTraced(services: seq<Service>, s: State, log: seq<Ended>, e: Event)
    requires Traced(s, log)
    ensures Traced(Next(services, s, e), log + EndedNow(services, s, e))
  {
    var log' := log + EndedNow(services, s, e);
    forall g: nat ensures GoroutineOk(Next(services, s, e), log', g) {
      assert GoroutineOk(s, log, g);
      if e.Finish? && Enabled(services, s, e) {
        OutcomesOfMore(log, Ended(e.g, e.outcome), g);
      } else {
        assert log' == log;
      }
    }
  }

  lemma {:induction false} RunTraced(services: seq<Service>, s: State, schedule: seq<Event>, log: seq<Ended>)
    requires Traced(s, log)
    ensures Traced(Run(services, s, schedule), log + Endings(services, s, schedule))
    decreases |schedule|
  {
    if schedule == [] {
      assert log + [] == log;
    } else {
      var next, now := Next(services, s, schedule[0]), EndedNow(services, s, schedule[0]);
      NextTraced(services, s, log, schedule[0]);
      RunTraced(services, next, schedule[1..], log + now);
      PlusAssociates(log, now, Endings(services, next, schedule[1..]));
    }
  }

  /** A result that Close receives is the outcome of the goroutine it waits for: it ended once, with this. */
  lemma ReceivedIsTheOutcome(services: seq<Service>, schedule: seq<Event>, i: nat)
    requires var s := After(services, schedule); i < |s.verdicts| && s.verdicts[i].Received?
    ensures OutcomesOf(Endings(services, Init(), schedule), i) == [After(services, schedule).verdicts[i].message.outcome]
  {
    AfterInv(services, schedule);
    RunTraced(services, Init(), schedule, []);
    assert [] + Endings(services, Init(), schedule) == Endings(services, Init(), schedule);
    var s := After(services, schedule);
    assert VerdictInv(s, i) && GoroutineOk(s, Endings(services, Init(), schedule), i);
  }

  // ---------------------------------------------------------------- the errors

  /** Error e says what became of a service of this name. */
  predicate Tells(name: string, v: Verdict, e: CloseError) {
    match v
    case TimedOut => e == CloseTimeout(name)
    case Received(Message(_, Closed)) => false
    case Received(Message(_, Failed(x, typed))) => e == if typed then AsReported(x) else CloseFailed(name, x)
    case Received(Message(_, Panicked(x))) => e == ClosePanic(name, x)
  }

  /** The errors at places `at` of the list of selects are these, and nothing else went wrong. */
  ghost predicate TellAll(services: seq<Service>, goroutines: seq<Goroutine>, verdicts: seq<Verdict>, errs: seq<CloseError>, at: seq<nat>) {
    && |at| == |errs| && |verdicts| <= |goroutines|
    && (forall j, k :: 0 <= j < k < |at| ==> at[j] < at[k])
    && (forall j :: 0 <= j < |at| ==> TellsAt(services, goroutines, verdicts, errs, at, j))
    && (forall i :: 0 <= i < |verdicts| ==> SilentAt(verdicts, at, i))
  }

  predicate TellsAt(
    services: seq<Service>, goroutines: seq<Goroutine>, verdicts: seq<Verdict>, errs: seq<CloseError>, at: seq<nat>, j: nat)
    requires j < |at| == |errs| && |verdicts| <= |goroutines|
  {
    && at[j] < |verdicts| && goroutines[at[j]].service < |services|
    && Tells(services[goroutines[at[j]].service].name, verdicts[at[j]], errs[j])
  }

  /** Just what was closed without an error is not told of. */
  predicate SilentAt(verdicts: seq<Verdict>, at: seq<nat>, i: nat)
    requires i < |verdicts|
  {
    i !in at <==> verdicts[i].Received? && verdicts[i].message.outcome.Closed?
  }

  lemma {:induction false} ErrorsTell(services: seq<Service>, goroutines: seq<Goroutine>, verdicts: seq<Verdict>) returns (at: seq<nat>)
    requires |verdicts| <= |goroutines| && forall i :: 0 <= i < |goroutines| ==> goroutines[i].service < |services|
    ensures TellAll(services, goroutines, verdicts, ErrorsOf(services, goroutines, verdicts), at)
    decreases |verdicts|
  {
    if verdicts == [] {
      at := [];
    } else {
      var last := |verdicts| - 1;
      var before := verdicts[..last];
      var errs := ErrorsOf(services, goroutines, before);
      var at' := ErrorsTell(services, goroutines, before);
      var name := services[goroutines[last].service].name;
      forall j | 0 <= j < |at'| ensures at'[j] < last {
        assert TellsAt(services, goroutines, before, errs, at', j);
      }
      if verdicts[last].Received? && verdicts[last].message.outcome.Closed? {
        at := at';
        assert ErrorsOf(services, goroutines, verdicts) == errs + [];
      } else {
        at := at' + [last];
        assert |ErrorsOf(services, goroutines, verdicts)| == |errs| + 1;
      }
      forall j | 0 <= j < |at| ensures TellsAt(services, goroutines, verdicts, ErrorsOf(services, goroutines, verdicts), at, j) {
        assert j < |at'| ==> TellsAt(services, goroutines, before, errs, at', j);
      }
      forall i | 0 <= i < |verdicts| ensures SilentAt(verdicts, at, i) {
        assert i < last ==> SilentAt(before, at', i);
      }
    }
  }

  predicate EarlierService(s: State, a: nat, b: nat) {
    a < |s.goroutines| && b < |s.goroutines| && s.goroutines[a].service < s.goroutines[b].service
  }

  /**
   * At any moment of any run the errors are those of the services that failed to
   * close, panicked or took too long, in the order of the services, each with its
   * service's name, and there is no other. at says where.
   */
  lemma ErrorsTellAll(services: seq<Service>, schedule: seq<Event>) returns (at: seq<nat>)
    ensures var s := After(services, schedule);
            && TellAll(services, s.goroutines, s.verdicts, s.errs, at)
            && (forall j, k :: 0 <= j < k < |at| ==> EarlierService(s, at[j], at[k]))
  {
    AfterInv(services, schedule);
    var s := After(services, schedule);
    forall i | 0 <= i < |s.goroutines| ensures s.goroutines[i].service < |services| {
      assert GoroutineInv(services, s, i);
    }
    at := ErrorsTell(services, s.goroutines, s.verdicts);
    forall j, k | 0 <= j < k < |at| ensures EarlierService(s, at[j], at[k]) {
      assert TellsAt(services, s.goroutines, s.verdicts, s.errs, at, k);
      assert GoroutineInv(services, s, at[j]);
    }
  }

  predicate ClosedWell(v: Verdict) {
    v.Received? && v.message.outcome == Closed
  }

  /** Close reports success exactly when every service it has turned to has closed in time and without an error. */
  lemma SuccessExactly(services: seq<Service>, schedule: seq<Event>)
    ensures var s := After(services, schedule);
            s.errs == [] <==> forall i :: 0 <= i < |s.verdicts| ==> ClosedWell(s.verdicts[i])
  {
    var s := After(services, schedule);
    var at := ErrorsTellAll(services, schedule);
    if s.errs != [] {
      assert TellsAt(services, s.goroutines, s.verdicts, s.errs, at, 0);
      assert SilentAt(s.verdicts, at, at[0]);
    } else {
      forall i | 0 <= i < |s.verdicts| ensures ClosedWell(s.verdicts[i]) {
        assert SilentAt(s.verdicts, at, i);
      }
    }
  }
}
