/**
 * What Allow, Reset and Swap of container/reload.go give their callers: the
 * limiter a call is run on, and the limiters that swaps report.
 */
module ReloadAnswers {
  import opened Basics
  import opened Reload

  /** A limiter was used, replaced, or, by a swap that is refused, kept. */
  datatype Answer = Used(limiter: int) | Replaced(was: int, next: int) | Kept(limiter: int)

  datatype Returned = Returned(t: nat, answer: Answer)

  /** What call t settles with the step it takes now. */
  function AnswerNow(s: State, t: nat): seq<Returned> {
    if !Enabled(s, t) then []
    else
      match s.modes[t]
      case Running(b) => [Returned(t, Used(s.boxes[b].limiter))]
      case PassingThrough(b) => if b < |s.boxes| then [Returned(t, Used(s.boxes[b].limiter))] else []
      case WantSwap(next) =>
        if next == None || s.closed then [Returned(t, Kept(s.boxes[s.current].limiter))]
        else [Returned(t, Replaced(s.boxes[s.current].limiter, next.value))]
      case _ => []
  }

  function Next(s: State, t: nat): State {
    if Enabled(s, t) then Step(s, t) else s
  }

  /** All answers of a run, in order. */
  function Answers(s: State, schedule: seq<nat>): seq<Returned>
    decreases |schedule|
  {
    if schedule == [] then [] else AnswerNow(s, schedule[0]) + Answers(Next(s, schedule[0]), schedule[1..])
  }

  /** The limiter that is current when call t looks for one now. */
  function LookedUp(s: State, t: nat, u: nat): set<int> {
    if u == t && Enabled(s, t) && (s.modes[t].Load? || s.modes[t].WantSwap?) then {s.boxes[s.current].limiter} else {}
  }

  /** The limiters that were current at the moments of a run at which call u looked. */
  function Seen(s: State, schedule: seq<nat>, u: nat): set<int>
    decreases |schedule|
  {
    if schedule == [] then {} else LookedUp(s, schedule[0], u) + Seen(Next(s, schedule[0]), schedule[1..], u)
  }

  // ------------------------------------------------------------ swaps in a row

  /** The limiters that swaps have reported as replaced. */
  function Olds(log: seq<Returned>): seq<int> {
    if log == [] then []
    else
      var last := log[|log| - 1].answer;
      Olds(log[..|log| - 1]) + if last.Replaced? then [last.was] else []
  }

  /** The limiters that those swaps have put in. */
  function News(log: seq<Returned>): seq<int> {
    if log == [] then []
    else
      var last := log[|log| - 1].answer;
      News(log[..|log| - 1]) + if last.Replaced? then [last.next] else []
  }

  function Limiters(boxes: seq<Box>): seq<int> {
    seq(|boxes|, b requires 0 <= b < |boxes| => boxes[b].limiter)
  }

  /** Each swap has reported what the one before it put in. */
  predicate Chained(s: State, initial: int, log: seq<Returned>) {
    && s.boxes != [] && Limiters(s.boxes) == [initial] + News(log)
    && Olds(log) == Limiters(s.boxes)[..|s.boxes| - 1]
  }

  lemma OneMoreAnswer(log: seq<Returned>, r: Returned)
    ensures Olds(log + [r]) == Olds(log) + if r.answer.Replaced? then [r.answer.was] else []
    ensures News(log + [r]) == News(log) + if r.answer.Replaced? then [r.answer.next] else []
  {
    assert (log + [r])[..|log|] == log;
  }

  lemma LimitersStay(s: State, t: nat)
    requires Inv(s) && Enabled(s, t)
    ensures var s' := Step(s, t);
            Limiters(s'.boxes) == Limiters(s.boxes) + match s.modes[t]
                                                      case WantSwap(Some(l)) => if s.closed then [] else [l]
                                                      case _ => []
  {
    var s' := Step(s, t);
    forall b | 0 <= b < |s.boxes| ensures b < |s'.boxes| && s'.boxes[b].limiter == s.boxes[b].limiter {
      StepKeepsRetired(s, t, b);
    }
  }

  lemma NextChained(s: State, initial: int, log: seq<Returned>, t: nat)
    requires Inv(s) && Chained(s, initial, log)
    ensures Chained(Next(s, t), initial, log + AnswerNow(s, t))
  {
    var now := AnswerNow(s, t);
    if Enabled(s, t) {
      LimitersStay(s, t);
    }
    if now == [] {
      assert log + now == log;
    } else {
      OneMoreAnswer(log, now[0]);
      assert now == [now[0]];
    }
  }

  // ---------------------------------------------------- one answer for each call

  /** The answers that call t has given. */
  function AnswersOf(log: seq<Returned>, t: nat): seq<Answer> {
    if log == [] then []
    else
      var last := log[|log| - 1];
      AnswersOf(log[..|log| - 1], t) + if last.t == t then [last.answer] else []
  }

  lemma AnswersOfMore(log: seq<Returned>, r: Returned, t: nat)
    ensures AnswersOf(log + [r], t) == AnswersOf(log, t) + if r.t == t then [r.answer] else []
  {
    assert (log + [r])[..|log|] == log;
  }

  /** Where call t is, and what it has given so far. */
  predicate CallOk(s: State, c: Call, m: Mode, answers: seq<Answer>, seen: set<int>) {
    match c
    case Allow =>
      (match m
       case Load(_) => answers == []
       case Acquire(b) => answers == [] && b < |s.boxes| && s.boxes[b].limiter in seen
       case Recheck(b) => answers == [] && b < |s.boxes| && s.boxes[b].limiter in seen
       case Running(b) => answers == [] && b < |s.boxes| && s.boxes[b].limiter in seen
       case PassingThrough(b) => answers == [] && b < |s.boxes| && s.boxes[b].limiter in seen
       case Drained(_) => RanOnce(answers, seen)
       case Done => RanOnce(answers, seen)
       case _ => false)
    case Swap(next) =>
      (match m
       case WantSwap(x) => x == next && answers == []
       case Retire(_) => Reported(s, next, answers, seen)
       case Finish(_) => Reported(s, next, answers, seen)
       case Done => Reported(s, next, answers, seen)
       case _ => false)
    case Close => answers == [] && (m == WantClose || m.Retire? || m.Finish? || m == Done)
  }

  predicate RanOnce(answers: seq<Answer>, seen: set<int>) {
    |answers| == 1 && answers[0].Used? && answers[0].limiter in seen
  }

  /** A swap has put its limiter in; it is refused without one, or after Close, and reports the one that is kept. */
  predicate Reported(s: State, next: Option<int>, answers: seq<Answer>, seen: set<int>) {
    && |answers| == 1
    && match answers[0]
       case Replaced(_, x) => next == Some(x)
       case Kept(l) => (next == None || s.closed) && l in seen
       case Used(_) => false
  }

  predicate CallNow(s: State, calls: seq<Call>, log: seq<Returned>, seen: set<int>, u: nat) {
    u < |calls| && u < |s.modes| ==> CallOk(s, calls[u], s.modes[u], AnswersOf(log, u), seen)
  }

  /** The box a call is on keeps its limiter. */
  predicate LimiterStays(s: State, s': State, b: nat) {
    b < |s.boxes| ==> b < |s'.boxes| && s'.boxes[b].limiter == s.boxes[b].limiter
  }

  lemma BoxStays(s: State, t: nat, b: nat)
    requires Inv(s) && Enabled(s, t)
    ensures LimiterStays(s, Step(s, t), b)
  {
    if b < |s.boxes| {
      StepKeepsRetired(s, t, b);
    }
  }

  lemma OwnCall(s: State, c: Call, answers: seq<Answer>, seen: set<int>, t: nat, answers': seq<Answer>)
    requires Inv(s) && Enabled(s, t) && CallOk(s, c, s.modes[t], answers, seen)
    requires answers' == answers + if AnswerNow(s, t) == [] then [] else [AnswerNow(s, t)[0].answer]
    ensures |Step(s, t).modes| == |s.modes| && CallOk(Step(s, t), c, Step(s, t).modes[t], answers', seen + LookedUp(s, t, t))
  {
    StepOthers(s, t);
    assert ModeInv(s, t);
    match s.modes[t]
    case Load(_) => BoxStays(s, t, s.current);
    case Acquire(b) => BoxStays(s, t, b);
    case Recheck(b) => BoxStays(s, t, b);
    case _ =>
  }

  lemma OtherCall(s: State, c: Call, m: Mode, answers: seq<Answer>, seen: set<int>, t: nat)
    requires Inv(s) && Enabled(s, t) && CallOk(s, c, m, answers, seen)
    ensures CallOk(Step(s, t), c, m, answers, seen)
  {
    StepOthers(s, t);
    match m
    case Acquire(b) => BoxStays(s, t, b);
    case Recheck(b) => BoxStays(s, t, b);
    case Running(b) => BoxStays(s, t, b);
    case PassingThrough(b) => BoxStays(s, t, b);
    case _ =>
  }

  lemma AnswersGrow(s: State, log: seq<Returned>, t: nat, u: nat)
    ensures AnswersOf(log + AnswerNow(s, t), u)
            == AnswersOf(log, u) + if u == t && AnswerNow(s, t) != [] then [AnswerNow(s, t)[0].answer] else []
  {
    var now := AnswerNow(s, t);
    if now == [] {
      assert log + now == log;
    } else {
      AnswersOfMore(log, now[0], u);
      assert now == [now[0]];
    }
  }

  lemma StepCall(s: State, calls: seq<Call>, log: seq<Returned>, seen: set<int>, t: nat, u: nat)
    requires Inv(s) && Enabled(s, t) && CallNow(s, calls, log, seen, u)
    ensures CallNow(Step(s, t), calls, log + AnswerNow(s, t), seen + LookedUp(s, t, u), u)
  {
    StepOthers(s, t);
    AnswersGrow(s, log, t, u);
    if u < |calls| && u < |s.modes| {
      if u == t {
        OwnCall(s, calls[u], AnswersOf(log, u), seen, t, AnswersOf(log + AnswerNow(s, t), u));
      } else {
        OtherCall(s, calls[u], s.modes[u], AnswersOf(log, u), seen, t);
        assert seen + LookedUp(s, t, u) == seen;
      }
    }
  }

  lemma NextCall(s: State, calls: seq<Call>, log: seq<Returned>, seen: set<int>, t: nat, u: nat)
    requires Inv(s) && CallNow(s, calls, log, seen, u)
    ensures Inv(Next(s, t)) && CallNow(Next(s, t), calls, log + AnswerNow(s, t), seen + LookedUp(s, t, u), u)
  {
    if Enabled(s, t) {
      StepInv(s, t);
      StepCall(s, calls, log, seen, t, u);
    } else {
      assert log + AnswerNow(s, t) == log && seen + LookedUp(s, t, u) == seen;
    }
  }

  lemma {:induction false} RunChained(s: State, schedule: seq<nat>, initial: int, log: seq<Returned>)
    requires Inv(s) && Chained(s, initial, log)
    ensures Chained(Run(s, schedule), initial, log + Answers(s, schedule))
    decreases |schedule|
  {
    if schedule == [] {
      assert log + [] == log;
    } else {
      var t := schedule[0];
      if Enabled(s, t) {
        StepInv(s, t);
      }
      NextChained(s, initial, log, t);
      RunChained(Next(s, t), schedule[1..], initial, log + AnswerNow(s, t));
      PlusAssociates(log, AnswerNow(s, t), Answers(Next(s, t), schedule[1..]));
    }
  }

  lemma {:induction false} RunCalls(s: State, schedule: seq<nat>, calls: seq<Call>, log: seq<Returned>, seen: set<int>, u: nat)
    requires Inv(s) && CallNow(s, calls, log, seen, u)
    ensures CallNow(Run(s, schedule), calls, log + Answers(s, schedule), seen + Seen(s, schedule, u), u)
    decreases |schedule|
  {
    if schedule == [] {
      assert log + [] == log && seen + {} == seen;
    } else {
      var t := schedule[0];
      NextCall(s, calls, log, seen, t, u);
      RunCalls(Next(s, t), schedule[1..], calls, log + AnswerNow(s, t), seen + LookedUp(s, t, u), u);
      PlusAssociates(log, AnswerNow(s, t), Answers(Next(s, t), schedule[1..]));
      assert (seen + LookedUp(s, t, u)) + Seen(Next(s, t), schedule[1..], u)
             == seen + (LookedUp(s, t, u) + Seen(Next(s, t), schedule[1..], u));
    }
  }

  // ------------------------------------------------------------ what is proved

  /**
   * Swaps form a chain, whatever runs beside them: each one that goes through
   * reports the limiter that the one before it put in, the first reports the
   * initial one, and the last one put in is current.
   */
  lemma SwapsFormAChain(initial: int, calls: seq<Call>, schedule: seq<nat>)
    ensures var s, log := Run(Init(initial, calls), schedule), Answers(Init(initial, calls), schedule);
            && s.current < |s.boxes|
            && Olds(log) + [s.boxes[s.current].limiter] == [initial] + News(log)
  {
    var s, log := Run(Init(initial, calls), schedule), Answers(Init(initial, calls), schedule);
    InitInv(initial, calls);
    RunInv(Init(initial, calls), schedule);
    assert Limiters(Init(initial, calls).boxes) == [initial] + News([]);
    RunChained(Init(initial, calls), schedule, initial, []);
    assert [] + log == log;
    assert Limiters(s.boxes) == Limiters(s.boxes)[..|s.boxes| - 1] + [s.boxes[s.current].limiter];
  }

  /**
   * A call of Allow or Reset that has returned has run its function once, on a
   * limiter that was current at a moment at which the call looked; a Swap has
   * put its limiter in, or was refused, without a limiter or after Close, and
   * was given the one that was current.
   */
  lemma EveryCallIsAnswered(initial: int, calls: seq<Call>, schedule: seq<nat>, t: nat)
    requires var s := Run(Init(initial, calls), schedule); t < |calls| && t < |s.modes| && s.modes[t] == Done
    ensures var s, answers := Run(Init(initial, calls), schedule), AnswersOf(Answers(Init(initial, calls), schedule), t);
            match calls[t]
            case Allow => RanOnce(answers, Seen(Init(initial, calls), schedule, t))
            case Swap(next) => Reported(s, next, answers, Seen(Init(initial, calls), schedule, t))
            case Close => answers == []
  {
    InitInv(initial, calls);
    RunCalls(Init(initial, calls), schedule, calls, [], {}, t);
    assert [] + Answers(Init(initial, calls), schedule) == Answers(Init(initial, calls), schedule);
    assert {} + Seen(Init(initial, calls), schedule, t) == Seen(Init(initial, calls), schedule, t);
  }
}
