/**
 * tryClose of container/close.go: services are closed one after the other, each
 * by a goroutine of its own that reports over a channel of capacity one. A
 * goroutine that takes too long is abandoned and may report much later.
 */
module CloseHandoff {
  import opened Basics

  /** key is dedupKey's answer; a nil service has nothing to close. */
  datatype Service = Service(name: string, isNil: bool, key: Option<int>)

  /** What closeAny comes to. typed marks an error that names its service already. */
  datatype Outcome = Closed | Failed(e: int, typed: bool) | Panicked(p: int)

  /** What ends up in the joined error. */
  datatype CloseError =
    | CloseFailed(service: string, e: int)
    | AsReported(e: int)
    | ClosePanic(service: string, p: int)
    | CloseTimeout(service: string)

  /** A result on its way; sender is the service whose goroutine put it there. */
  datatype Message = Message(sender: nat, outcome: Outcome)

  datatype Phase = Closing | Reporting(outcome: Outcome) | Exited(outcome: Outcome)

  datatype Goroutine = Goroutine(service: nat, channel: nat, phase: Phase)

  /** How the wait for a goroutine ended. */
  datatype Verdict = Received(message: Message) | TimedOut

  /**
   * next is the service to turn to; waiting says Close is in its select. The
   * channels hold at most one message each. verdicts is the history of selects.
   */
  datatype State = State(
    next: nat, waiting: bool, seen: set<int>, done: Option<nat>,
    channels: seq<Option<Message>>, goroutines: seq<Goroutine>, verdicts: seq<Verdict>, errs: seq<CloseError>)

  datatype Event =
    | Turn
    | Receive
    | Timeout
    | Finish(g: nat, outcome: Outcome)
    | Send(g: nat)

  function Init(): State {
    State(0, false, {}, None, [], [], [], [])
  }

  predicate Skipped(s: Service, seen: set<int>) {
    s.isNil || (s.key.Some? && s.key.value in seen)
  }

  predicate Enabled(services: seq<Service>, s: State, e: Event) {
    match e
    case Turn => !s.waiting && s.next < |services|
    case Receive => s.waiting && s.next < |services| && s.done.Some? && s.done.value < |s.channels| && s.channels[s.done.value].Some?
    case Timeout => s.waiting && s.next < |services|
    case Finish(g, _) => g < |s.goroutines| && s.goroutines[g].phase.Closing?
    case Send(g) =>
      && g < |s.goroutines| && s.goroutines[g].phase.Reporting?
      && s.goroutines[g].channel < |s.channels| && s.channels[s.goroutines[g].channel] == None
  }

  function Reported(service: string, o: Outcome): seq<CloseError> {
    match o
    case Closed => []
    case Failed(e, typed) => if typed then [AsReported(e)] else [CloseFailed(service, e)]
    case Panicked(p) => [ClosePanic(service, p)]
  }

  function Step(services: seq<Service>, s: State, e: Event): State
    requires Enabled(services, s, e)
  {
    match e
    case Turn =>
      var service := services[s.next];
      if Skipped(service, s.seen) then s.(next := s.next + 1)
      else
        var first := s.done == None;
        var channel := if first then |s.channels| else s.done.value;
        s.(waiting := true,
           seen := if service.key.Some? then s.seen + {service.key.value} else s.seen,
           done := Some(channel),
           channels := if first then s.channels + [None] else s.channels,
           goroutines := s.goroutines + [Goroutine(s.next, channel, Closing)])
    case Receive =>
      var message := s.channels[s.done.value].value;
      s.(next := s.next + 1, waiting := false,
         channels := s.channels[s.done.value := None],
         verdicts := s.verdicts + [Received(message)],
         errs := s.errs + Reported(services[s.next].name, message.outcome))
    case Timeout =>
      s.(next := s.next + 1, waiting := false,
         done := Some(|s.channels|),
         channels := s.channels + [None],
         verdicts := s.verdicts + [TimedOut],
         errs := s.errs + [CloseTimeout(services[s.next].name)])
    case Finish(g, outcome) =>
      s.(goroutines := s.goroutines[g := s.goroutines[g].(phase := Reporting(outcome))])
    case Send(g) =>
      var gr := s.goroutines[g];
      s.(goroutines := s.goroutines[g := gr.(phase := Exited(gr.phase.outcome))],
         channels := s.channels[gr.channel := Some(Message(gr.service, gr.phase.outcome))])
  }

  // --------------------------------------------------------------- invariant

  predicate Live(g: Goroutine) {
    !g.phase.Exited?
  }

  /** The goroutine Close is waiting for: its result is still to come or is in the channel. */
  predicate Awaited(s: State, g: Goroutine) {
    && g.service == s.next && s.done == Some(g.channel) && g.channel < |s.channels|
    && (if Live(g) then s.channels[g.channel] == None
        else s.channels[g.channel] == Some(Message(s.next, g.phase.outcome)))
  }

  /** An abandoned goroutine has its channel to itself. */
  predicate GoroutineInv(services: seq<Service>, s: State, i: nat)
    requires i < |s.goroutines|
  {
    var g := s.goroutines[i];
    && g.service < |services| && g.channel < |s.channels| && !services[g.service].isNil
    && (Live(g) ==> s.channels[g.channel] == None)
    && (forall j :: i < j < |s.goroutines| ==> g.service < s.goroutines[j].service)
    && (forall j :: i < j < |s.goroutines| ==> Live(g) ==> g.channel != s.goroutines[j].channel)
    && (services[g.service].key.Some? ==> services[g.service].key.value in s.seen)
    && (forall j :: i < j < |s.goroutines| ==> !SameInstance(services, g.service, s.goroutines[j].service))
    && (i < |s.verdicts| && Live(g) ==> s.done != Some(g.channel))
  }

  /** A service is passed over only if it is nil or its instance has its goroutine already. */
  predicate Handled(services: seq<Service>, s: State, n: nat)
    requires n < |services|
  {
    || services[n].isNil
    || (exists i :: 0 <= i < |s.goroutines| && s.goroutines[i].service == n)
    || (services[n].key.Some? && exists i :: 0 <= i < |s.goroutines| && SameInstance(services, s.goroutines[i].service, n))
  }

  predicate SameInstance(services: seq<Service>, a: nat, b: nat) {
    a < b < |services| && !services[a].isNil && !services[b].isNil
    && services[a].key.Some? && services[a].key == services[b].key
  }

  predicate VerdictInv(s: State, i: nat)
    requires i < |s.verdicts| && i < |s.goroutines|
  {
    s.verdicts[i].Received? ==>
      s.goroutines[i].phase == Exited(s.verdicts[i].message.outcome) && s.verdicts[i].message.sender == s.goroutines[i].service
  }

  predicate SeenInv(services: seq<Service>, s: State, k: int) {
    exists i :: 0 <= i < |s.goroutines| && s.goroutines[i].service < |services| && services[s.goroutines[i].service].key == Some(k)
  }

  predicate Inv(services: seq<Service>, s: State) {
    && s.next <= |services|
    && |s.goroutines| == |s.verdicts| + (if s.waiting then 1 else 0)
    && (forall i :: 0 <= i < |s.goroutines| ==> GoroutineInv(services, s, i))
    && (forall i :: 0 <= i < |s.goroutines| ==> s.goroutines[i].service < s.next + (if s.waiting then 1 else 0))
    && (forall i :: 0 <= i < |s.verdicts| ==> VerdictInv(s, i))
    && (forall k :: k in s.seen ==> SeenInv(services, s, k))
    && (forall n :: 0 <= n < s.next ==> Handled(services, s, n))
    && (if s.waiting then s.next < |services| && Awaited(s, s.goroutines[|s.goroutines| - 1])
        else s.done.Some? ==> s.done.value < |s.channels| && s.channels[s.done.value] == None)
    && s.errs == ErrorsOf(services, s.goroutines, s.verdicts)
  }

  /** The errors a history of selects comes to, in order. */
  function ErrorsOf(services: seq<Service>, goroutines: seq<Goroutine>, verdicts: seq<Verdict>): seq<CloseError> {
    if verdicts == [] then []
    else
      var last := |verdicts| - 1;
      var name := if last < |goroutines| && goroutines[last].service < |services| then services[goroutines[last].service].name else "";
      ErrorsOf(services, goroutines, verdicts[..last])
      + match verdicts[last]
        case Received(message) => Reported(name, message.outcome)
        case TimedOut => [CloseTimeout(name)]
  }

  lemma {:induction false} ErrorsCongruent(services: seq<Service>, a: seq<Goroutine>, b: seq<Goroutine>, verdicts: seq<Verdict>)
    requires |verdicts| <= |a| && |verdicts| <= |b|
    requires forall i :: 0 <= i < |verdicts| ==> a[i].service == b[i].service
    ensures ErrorsOf(services, a, verdicts) == ErrorsOf(services, b, verdicts)
    decreases |verdicts|
  {
    if verdicts != [] {
      ErrorsCongruent(services, a, b, verdicts[..|verdicts| - 1]);
    }
  }

  /** What a step does to a goroutine that exists already. */
  lemma StepGoroutine(services: seq<Service>, s: State, e: Event, i: nat)
    requires Enabled(services, s, e) && i < |s.goroutines|
    ensures i < |Step(services, s, e).goroutines|
    ensures var g, g' := s.goroutines[i], Step(services, s, e).goroutines[i];
            && g'.service == g.service && g'.channel == g.channel && (Live(g') ==> Live(g))
            && (!Live(g) ==> g' == g)
  {
  }

  lemma TurnInv(services: seq<Service>, s: State)
    requires Inv(services, s) && Enabled(services, s, Turn)
    ensures Inv(services, Step(services, s, Turn))
  {
    var s' := Step(services, s, Turn);
    var service := services[s.next];
    ErrorsCongruent(services, s.goroutines, s'.goroutines, s.verdicts);
    forall i | 0 <= i < |s'.goroutines| ensures GoroutineInv(services, s', i) {
      if i < |s.goroutines| {
        assert GoroutineInv(services, s, i);
      }
    }
    forall n | 0 <= n < s'.next ensures Handled(services, s', n) {
      TurnHandles(services, s, n);
    }
    forall k | k in s'.seen ensures SeenInv(services, s', k) {
      if k in s.seen {
        SeenStays(services, s, Turn, k);
      } else {
        assert s'.goroutines[|s.goroutines|].service == s.next;
      }
    }
    forall i | 0 <= i < |s'.verdicts| ensures VerdictInv(s', i) {
      assert VerdictInv(s, i);
    }
  }

  lemma SeenStays(services: seq<Service>, s: State, e: Event, k: int)
    requires Enabled(services, s, e) && SeenInv(services, s, k)
    ensures SeenInv(services, Step(services, s, e), k)
  {
    var i :| 0 <= i < |s.goroutines| && s.goroutines[i].service < |services| && services[s.goroutines[i].service].key == Some(k);
    StepGoroutine(services, s, e, i);
  }

  lemma HandledStays(services: seq<Service>, s: State, e: Event, n: nat)
    requires Enabled(services, s, e) && n < |services| && Handled(services, s, n)
    ensures Handled(services, Step(services, s, e), n)
  {
    var s' := Step(services, s, e);
    if !services[n].isNil {
      if i :| 0 <= i < |s.goroutines| && s.goroutines[i].service == n {
        StepGoroutine(services, s, e, i);
        assert s'.goroutines[i].service == n;
      } else {
        var i :| 0 <= i < |s.goroutines| && SameInstance(services, s.goroutines[i].service, n);
        StepGoroutine(services, s, e, i);
        assert SameInstance(services, s'.goroutines[i].service, n);
      }
    }
  }

  /** A service that Close passes over is nil, or its instance was met before. */
  lemma TurnHandles(services: seq<Service>, s: State, n: nat)
    requires Inv(services, s) && Enabled(services, s, Turn) && n < Step(services, s, Turn).next
    ensures Handled(services, Step(services, s, Turn), n)
  {
    if n < s.next {
      HandledStays(services, s, Turn, n);
    } else if !services[n].isNil {
      var k := services[n].key.value;
      assert SeenInv(services, s, k);
      var i :| 0 <= i < |s.goroutines| && s.goroutines[i].service < |services| && services[s.goroutines[i].service].key == Some(k);
      assert GoroutineInv(services, s, i) && SameInstance(services, s.goroutines[i].service, n);
    }
  }

  lemma ReceiveInv(services: seq<Service>, s: State)
    requires Inv(services, s) && Enabled(services, s, Receive)
    ensures Inv(services, Step(services, s, Receive))
  {
    var s' := Step(services, s, Receive);
    var last := |s.verdicts|;
    assert s'.verdicts[..last] == s.verdicts;
    forall i | 0 <= i < |s'.goroutines| ensures GoroutineInv(services, s', i) {
      assert GoroutineInv(services, s, i);
    }
    forall i | 0 <= i < |s'.verdicts| ensures VerdictInv(s', i) {
      if i < last {
        assert VerdictInv(s, i);
      }
    }
    forall n | 0 <= n < s'.next ensures Handled(services, s', n) {
      if n < s.next {
        HandledStays(services, s, Receive, n);
      } else {
        assert s'.goroutines[last].service == n;
      }
    }
    forall k | k in s'.seen ensures SeenInv(services, s', k) {
      SeenStays(services, s, Receive, k);
    }
  }

  lemma TimeoutInv(services: seq<Service>, s: State)
    requires Inv(services, s) && Enabled(services, s, Timeout)
    ensures Inv(services, Step(services, s, Timeout))
  {
    var s' := Step(services, s, Timeout);
    var last := |s.verdicts|;
    assert s'.verdicts[..last] == s.verdicts;
    forall i | 0 <= i < |s'.goroutines| ensures GoroutineInv(services, s', i) {
      assert GoroutineInv(services, s, i);
    }
    forall i | 0 <= i < |s'.verdicts| ensures VerdictInv(s', i) {
      if i < last {
        assert VerdictInv(s, i);
      }
    }
    forall n | 0 <= n < s'.next ensures Handled(services, s', n) {
      if n < s.next {
        HandledStays(services, s, Timeout, n);
      } else {
        assert s'.goroutines[last].service == n;
      }
    }
    forall k | k in s'.seen ensures SeenInv(services, s', k) {
      SeenStays(services, s, Timeout, k);
    }
  }

  lemma GoroutineStepGoroutine(services: seq<Service>, s: State, e: Event, g: nat, i: nat)
    requires Inv(services, s) && Enabled(services, s, e) && i < |s.goroutines|
    requires e == Send(g) || (e.Finish? && e.g == g)
    ensures |Step(services, s, e).goroutines| == |s.goroutines| && GoroutineInv(services, Step(services, s, e), i)
  {
    var s' := Step(services, s, e);
    assert GoroutineInv(services, s, g) && GoroutineInv(services, s, i);
    forall j | 0 <= j < |s.goroutines|
      ensures s'.goroutines[j].service == s.goroutines[j].service && s'.goroutines[j].channel == s.goroutines[j].channel {
      StepGoroutine(services, s, e, j);
    }
  }

  /** What Close waits for is still to come, or there now. */
  lemma GoroutineStepWaits(services: seq<Service>, s: State, e: Event, g: nat)
    requires Inv(services, s) && Enabled(services, s, e)
    requires e == Send(g) || (e.Finish? && e.g == g)
    ensures var s' := Step(services, s, e);
            if s'.waiting then s'.goroutines != [] && Awaited(s', s'.goroutines[|s'.goroutines| - 1])
            else s'.done.Some? ==> s'.done.value < |s'.channels| && s'.channels[s'.done.value] == None
  {
    assert GoroutineInv(services, s, g);
    if s.waiting && g < |s.goroutines| - 1 {
      assert GoroutineInv(services, s, |s.goroutines| - 1);
    }
  }

  /** Steps of goroutines leave the rest of Close's bookkeeping alone. */
  lemma GoroutineStepInv(services: seq<Service>, s: State, e: Event, g: nat)
    requires Inv(services, s) && Enabled(services, s, e)
    requires e == Send(g) || (e.Finish? && e.g == g)
    ensures Inv(services, Step(services, s, e))
  {
    var s' := Step(services, s, e);
    assert GoroutineInv(services, s, g);
    ErrorsCongruent(services, s.goroutines, s'.goroutines, s.verdicts);
    forall i | 0 <= i < |s'.goroutines| ensures GoroutineInv(services, s', i) {
      GoroutineStepGoroutine(services, s, e, g, i);
    }
    forall i | 0 <= i < |s'.verdicts| ensures VerdictInv(s', i) {
      assert VerdictInv(s, i);
    }
    forall n | 0 <= n < s'.next ensures Handled(services, s', n) {
      HandledStays(services, s, e, n);
    }
    forall k | k in s'.seen ensures SeenInv(services, s', k) {
      SeenStays(services, s, e, k);
    }
    GoroutineStepWaits(services, s, e, g);
  }

  lemma StepInv(services: seq<Service>, s: State, e: Event)
    requires Inv(services, s) && Enabled(services, s, e)
    ensures Inv(services, Step(services, s, e))
  {
    match e
    case Turn => TurnInv(services, s);
    case Receive => ReceiveInv(services, s);
    case Timeout => TimeoutInv(services, s);
    case Finish(g, _) => GoroutineStepInv(services, s, e, g);
    case Send(g) => GoroutineStepInv(services, s, e, g);
  }

  // -------------------------------------------------------------------- runs

  /** A schedule of Close and its goroutines; what cannot happen is passed over. */
  function Run(services: seq<Service>, s: State, schedule: seq<Event>): State
    decreases |schedule|
  {
    if schedule == [] then s
    else Run(services, if Enabled(services, s, schedule[0]) then Step(services, s, schedule[0]) else s, schedule[1..])
  }

  lemma {:induction false} RunInv(services: seq<Service>, s: State, schedule: seq<Event>)
    requires Inv(services, s)
    ensures Inv(services, Run(services, s, schedule))
    decreases |schedule|
  {
    if schedule != [] {
      if Enabled(services, s, schedule[0]) {
        StepInv(services, s, schedule[0]);
        RunInv(services, Step(services, s, schedule[0]), schedule[1..]);
      } else {
        RunInv(services, s, schedule[1..]);
      }
    }
  }

  function After(services: seq<Service>, schedule: seq<Event>): State {
    Run(services, Init(), schedule)
  }

  lemma AfterInv(services: seq<Service>, schedule: seq<Event>)
    ensures Inv(services, After(services, schedule))
  {
    RunInv(services, Init(), schedule);
  }

  /** What Close receives is the result of the very service it is closing. */
  lemma ReceivedIsItsOwn(services: seq<Service>, schedule: seq<Event>)
    requires Enabled(services, After(services, schedule), Receive)
    ensures var s := After(services, schedule);
            var message := s.channels[s.done.value].value;
            && message.sender == s.next && s.goroutines != []
            && s.goroutines[|s.goroutines| - 1] == Goroutine(s.next, s.done.value, Exited(message.outcome))
  {
    AfterInv(services, schedule);
  }

  /** A goroutine with a result to report is never kept waiting, however late it is. */
  lemma NoSendBlocks(services: seq<Service>, schedule: seq<Event>, g: nat)
    requires var s := After(services, schedule); g < |s.goroutines| && s.goroutines[g].phase.Reporting?
    ensures Enabled(services, After(services, schedule), Send(g))
  {
    AfterInv(services, schedule);
    assert GoroutineInv(services, After(services, schedule), g);
  }

  /** The report of an abandoned goroutine goes into a channel that Close has let go of. */
  lemma LateSendGoesNowhere(services: seq<Service>, schedule: seq<Event>, g: nat)
    requires var s := After(services, schedule); g < |s.verdicts| && Enabled(services, s, Send(g))
    ensures var s := After(services, schedule);
            && s.verdicts[g] == TimedOut && s.done != Some(s.goroutines[g].channel)
            && forall e :: e == Receive || e == Timeout || e == Turn ==>
                 (Enabled(services, Step(services, s, Send(g)), e) <==> Enabled(services, s, e))
  {
    AfterInv(services, schedule);
    var s := After(services, schedule);
    assert GoroutineInv(services, s, g) && VerdictInv(s, g);
  }

  /** One Close closes an instance at most once, and services in their order, one after the other. */
  lemma InstancesCloseOnce(services: seq<Service>, schedule: seq<Event>, i: nat, j: nat)
    requires var s := After(services, schedule); i < j < |s.goroutines|
    ensures var s := After(services, schedule);
            && s.goroutines[i].service < s.goroutines[j].service < |services|
            && (services[s.goroutines[i].service].key.Some? ==>
                  services[s.goroutines[i].service].key != services[s.goroutines[j].service].key)
            && i < |s.verdicts|
  {
    AfterInv(services, schedule);
    var s := After(services, schedule);
    assert GoroutineInv(services, s, i) && GoroutineInv(services, s, j);
    assert !SameInstance(services, s.goroutines[i].service, s.goroutines[j].service);
  }

  predicate ClosedBy(s: State, i: nat, n: nat) {
    i < |s.goroutines| && s.goroutines[i].service == n
  }

  /**
   * Close that has come to the end has closed every service, or the earlier one
   * that is the same instance, and reports what became of each, in order.
   */
  lemma EveryServiceIsDealtWith(services: seq<Service>, schedule: seq<Event>, n: nat)
    requires After(services, schedule).next == |services| && n < |services| && !services[n].isNil
    ensures var s := After(services, schedule);
            && (exists i: nat, m: nat :: ClosedBy(s, i, m) && m <= n && (m == n || SameInstance(services, m, n)))
            && |s.verdicts| == |s.goroutines| && s.errs == ErrorsOf(services, s.goroutines, s.verdicts)
  {
    AfterInv(services, schedule);
    var s := After(services, schedule);
    assert Handled(services, s, n);
    if i :| 0 <= i < |s.goroutines| && s.goroutines[i].service == n {
      assert ClosedBy(s, i, n);
    } else {
      var i :| 0 <= i < |s.goroutines| && SameInstance(services, s.goroutines[i].service, n);
      assert ClosedBy(s, i, s.goroutines[i].service);
    }
  }

  /** The steps that Close itself takes. */
  function OwnMoves(services: seq<Service>, s: State, schedule: seq<Event>): nat
    decreases |schedule|
  {
    if schedule == [] then 0
    else
      var e := schedule[0];
      (if Enabled(services, s, e) && (e.Turn? || e.Receive? || e.Timeout?) then 1 else 0)
      + OwnMoves(services, if Enabled(services, s, e) then Step(services, s, e) else s, schedule[1..])
  }

  /** At most two for each service. */
  lemma {:induction false} CloseEnds(services: seq<Service>, s: State, schedule: seq<Event>)
    requires s.next <= |services| && (s.waiting ==> s.next < |services|)
    ensures OwnMoves(services, s, schedule) <= 2 * (|services| - s.next) - (if s.waiting then 1 else 0)
    decreases |schedule|
  {
    if schedule != [] {
      CloseEnds(services, if Enabled(services, s, schedule[0]) then Step(services, s, schedule[0]) else s, schedule[1..]);
    }
  }

  /**
   * Close is never stuck: it can turn to the next service, or time out, and while
   * it waits its result is there or the goroutine it waits for can move.
   */
  lemma CloseCanMove(services: seq<Service>, s: State, outcome: Outcome)
    requires Inv(services, s) && s.next < |services|
    ensures Enabled(services, s, NextEvent(s, outcome)) && !NextEvent(s, outcome).Timeout?
    ensures s.waiting ==> Enabled(services, s, Timeout)
  {
    if s.waiting {
      assert GoroutineInv(services, s, |s.goroutines| - 1);
    }
  }

  /** What has to happen next for Close to get on, when the service being closed returns with outcome. */
  function NextEvent(s: State, outcome: Outcome): Event {
    if !s.waiting || s.goroutines == [] then Turn
    else
      var last := |s.goroutines| - 1;
      match s.goroutines[last].phase
      case Closing => Finish(last, outcome)
      case Reporting(_) => Send(last)
      case Exited(_) => Receive
  }

  function StepsToNext(s: State): nat {
    match NextEvent(s, Closed)
    case Turn => 3
    case Finish(_, _) => 2
    case Send(_) => 1
    case Receive => 0
    case Timeout => 0
  }

  /** From every state of every run Close can come to the end, without a timeout if the services return. */
  lemma {:induction false} SomeEnd(services: seq<Service>, s: State, outcome: Outcome) returns (more: seq<Event>)
    requires Inv(services, s)
    ensures Run(services, s, more).next == |services| && Timeout !in more
    decreases |services| - s.next, StepsToNext(s)
  {
    more := [];
    if s.next < |services| {
      var e := NextEvent(s, outcome);
      CloseCanMove(services, s, outcome);
      StepInv(services, s, e);
      var rest := SomeEnd(services, Step(services, s, e), outcome);
      more := [e] + rest;
      assert more[1..] == rest;
    }
  }
}
