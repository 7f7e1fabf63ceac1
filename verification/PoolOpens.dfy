/**
 * Where the connections of poolRegistry.borrow come from: a pool's is the one
 * its only successful open returned, and an error is that of the call's own open.
 */
module PoolOpens {
  import opened Basics
  import opened Pools

  /** One open: who made it, for which pool, and what it returned. */
  datatype Opened = Opened(thread: nat, key: string, outcome: Res)

  function OpenedNow(calls: seq<Borrower>, s: State, e: Event): seq<Opened> {
    if Enabled(calls, s, e.thread) && s.modes[e.thread].Opening? then [Opened(e.thread, calls[e.thread].key, e.outcome)] else []
  }

  function Next(calls: seq<Borrower>, s: State, e: Event): State {
    if Enabled(calls, s, e.thread) then Step(calls, s, e.thread, e.outcome) else s
  }

  /** All opens of a run, in order. */
  function Opens(calls: seq<Borrower>, s: State, schedule: seq<Event>): seq<Opened>
    decreases |schedule|
  {
    if schedule == [] then []
    else OpenedNow(calls, s, schedule[0]) + Opens(calls, Next(calls, s, schedule[0]), schedule[1..])
  }

  /** The opens for k that gave a connection. */
  function Successes(log: seq<Opened>, k: string): seq<Opened> {
    if log == [] then []
    else
      var last := log[|log| - 1];
      Successes(log[..|log| - 1], k) + if last.key == k && last.outcome.Conn? then [last] else []
  }

  lemma SuccessesMore(log: seq<Opened>, o: Opened, k: string)
    ensures Successes(log + [o], k) == Successes(log, k) + if o.key == k && o.outcome.Conn? then [o] else []
  {
    assert (log + [o])[..|log|] == log;
  }

  /** An open pool has had one successful open, which made it what it is. */
  predicate PoolOk(calls: seq<Borrower>, s: State, log: seq<Opened>, k: string) {
    if IsOpen(s, k) then
      && |Successes(log, k)| == 1
      && var o := Successes(log, k)[0];
         && o.thread < |calls| && calls[o.thread].key == k && o.outcome == Conn(s.pools[k].conn)
         && s.pools[k].backend == calls[o.thread].backend && s.pools[k].knobs == calls[o.thread].maxConns
    else Successes(log, k) == []
  }

  predicate FailureOk(calls: seq<Borrower>, log: seq<Opened>, t: nat, m: Mode)
    requires t < |calls|
  {
    match m
    case Signal(_, OpenFailed(e)) => Opened(t, calls[t].key, OpenFailed(e)) in log
    case Done(OpenFailed(e)) => Opened(t, calls[t].key, OpenFailed(e)) in log
    case _ => true
  }

  ghost predicate Traced(calls: seq<Borrower>, s: State, log: seq<Opened>) {
    && (forall k :: PoolOk(calls, s, log, k))
    && (forall t :: 0 <= t < |calls| && t < |s.modes| ==> FailureOk(calls, log, t, s.modes[t]))
  }

  /** Only an open that succeeds makes a pool. */
  lemma StepOpensNone(calls: seq<Borrower>, s: State, e: Event, k: string)
    requires Inv(calls, s) && Enabled(calls, s, e.thread) && !s.modes[e.thread].Opening?
    ensures IsOpen(Next(calls, s, e), k) <==> IsOpen(s, k)
    ensures IsOpen(s, k) ==> SamePool(s.pools[k], Next(calls, s, e).pools[k])
  {
    if IsOpen(s, k) {
      StepKeepsPool(calls, s, e.thread, e.outcome, k);
    }
  }

  lemma OpeningPool(calls: seq<Borrower>, s: State, log: seq<Opened>, e: Event, k: string)
    requires Inv(calls, s) && PoolOk(calls, s, log, k) && Enabled(calls, s, e.thread) && s.modes[e.thread].Opening?
    ensures PoolOk(calls, Next(calls, s, e), log + [Opened(e.thread, calls[e.thread].key, e.outcome)], k)
  {
    assert ModeInv(calls, s, e.thread);
    SuccessesMore(log, Opened(e.thread, calls[e.thread].key, e.outcome), k);
    if k != calls[e.thread].key {
      assert IsOpen(Next(calls, s, e), k) <==> IsOpen(s, k);
    }
  }

  lemma NextPool(calls: seq<Borrower>, s: State, log: seq<Opened>, e: Event, k: string)
    requires Inv(calls, s) && PoolOk(calls, s, log, k)
    ensures PoolOk(calls, Next(calls, s, e), log + OpenedNow(calls, s, e), k)
  {
    if Enabled(calls, s, e.thread) && s.modes[e.thread].Opening? {
      OpeningPool(calls, s, log, e, k);
    } else {
      assert log + OpenedNow(calls, s, e) == log;
      if Enabled(calls, s, e.thread) {
        StepOpensNone(calls, s, e, k);
      }
    }
  }

  lemma NextTraced(calls: seq<Borrower>, s: State, log: seq<Opened>, e: Event)
    requires Inv(calls, s) && Traced(calls, s, log)
    ensures Inv(calls, Next(calls, s, e)) && Traced(calls, Next(calls, s, e), log + OpenedNow(calls, s, e))
  {
    var s', log' := Next(calls, s, e), log + OpenedNow(calls, s, e);
    if Enabled(calls, s, e.thread) {
      StepInv(calls, s, e.thread, e.outcome);
      StepOthers(calls, s, e.thread, e.outcome);
    }
    forall k ensures PoolOk(calls, s', log', k) {
      assert PoolOk(calls, s, log, k);
      NextPool(calls, s, log, e, k);
    }
    forall t | 0 <= t < |calls| && t < |s'.modes| ensures FailureOk(calls, log', t, s'.modes[t]) {
      assert FailureOk(calls, log, t, s.modes[t]);
    }
  }

  lemma {:induction false} RunTraced(calls: seq<Borrower>, s: State, schedule: seq<Event>, log: seq<Opened>)
    requires Inv(calls, s) && Traced(calls, s, log)
    ensures Inv(calls, Run(calls, s, schedule)) && Traced(calls, Run(calls, s, schedule), log + Opens(calls, s, schedule))
    decreases |schedule|
  {
    if schedule == [] {
      assert log + [] == log;
    } else {
      var next, now := Next(calls, s, schedule[0]), OpenedNow(calls, s, schedule[0]);
      NextTraced(calls, s, log, schedule[0]);
      RunTraced(calls, next, schedule[1..], log + now);
      PlusAssociates(log, now, Opens(calls, next, schedule[1..]));
    }
  }

  lemma RunFromInit(calls: seq<Borrower>, schedule: seq<Event>)
    ensures var s := Run(calls, Init(|calls|), schedule);
            Inv(calls, s) && Traced(calls, s, Opens(calls, Init(|calls|), schedule))
  {
    RunTraced(calls, Init(|calls|), schedule, []);
    assert [] + Opens(calls, Init(|calls|), schedule) == Opens(calls, Init(|calls|), schedule);
  }

  /**
   * Whoever borrows under a key gets the connection that the one successful open
   * for it returned, made by a call with that key.
   */
  lemma ConnectionIsTheOpeners(calls: seq<Borrower>, schedule: seq<Event>, t: nat, conn: int) returns (o: Opened)
    requires var s := Run(calls, Init(|calls|), schedule); t < |calls| && t < |s.modes| && s.modes[t] == Done(Conn(conn))
    ensures Successes(Opens(calls, Init(|calls|), schedule), calls[t].key) == [o]
    ensures o.outcome == Conn(conn) && o.thread < |calls| && calls[o.thread].key == calls[t].key
    ensures var s := Run(calls, Init(|calls|), schedule);
            && IsOpen(s, calls[t].key)
            && s.pools[calls[t].key].backend == calls[o.thread].backend
            && s.pools[calls[t].key].knobs == calls[o.thread].maxConns
  {
    RunFromInit(calls, schedule);
    var s, log := Run(calls, Init(|calls|), schedule), Opens(calls, Init(|calls|), schedule);
    assert ModeInv(calls, s, t) && PoolOk(calls, s, log, calls[t].key);
    o := Successes(log, calls[t].key)[0];
  }

  /** A call that fails has itself made the open that failed, with that error. */
  lemma FailureIsOwn(calls: seq<Borrower>, schedule: seq<Event>, t: nat, e: int)
    requires var s := Run(calls, Init(|calls|), schedule); t < |calls| && t < |s.modes| && s.modes[t] == Done(OpenFailed(e))
    ensures Opened(t, calls[t].key, OpenFailed(e)) in Opens(calls, Init(|calls|), schedule)
  {
    RunFromInit(calls, schedule);
    var s := Run(calls, Init(|calls|), schedule);
    assert FailureOk(calls, Opens(calls, Init(|calls|), schedule), t, s.modes[t]);
  }
}
