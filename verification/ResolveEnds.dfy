/**
 * Concurrent resolvers finish: when factories return, no schedule can keep
 * them stepping for ever, although a waiter whose build failed tries again.
 */
module ResolveEnds {
  import opened ProviderGraph
  import opened Resolve

  // ------------------------------------------------------------- the measure

  /** What the measure says of one thread. */
  datatype Load = Load(live: nat, storing: nat, room: nat, work: nat, waits: nat)

  predicate Failing(th: Thread) {
    match th.mode
    case Store(res) => res.Fail?
    case Close(res) => res.Fail?
    case Deliver(_, res) => res.Fail?
    case Done(_, _) => true
    case _ => false
  }

  function DepsLeft(w: Wiring, th: Thread): nat {
    if th.frames == [] || Top(th).key !in w.graph || |Top(th).args| > |w.graph[Top(th).key].deps| then 0
    else |w.graph[Top(th).key].deps| - |Top(th).args|
  }

  /** Unwinding costs three steps a frame. */
  function FailingWork(th: Thread): nat {
    match th.mode
    case Store(_) => 3 * |th.frames| + 2
    case Close(_) => 3 * |th.frames| + 1
    case Deliver(_, _) => 3 * |th.frames| + 3
    case _ => 0
  }

  function LiveWork(w: Wiring, th: Thread): nat {
    4 * DepsLeft(w, th)
    + match th.mode
      case Run => 3
      case Want(_) => 2
      case Wait(_, _) => 2
      case Deliver(_, _) => 1
      case _ => 0
  }

  function Waits(entries: seq<Entry>, th: Thread): nat {
    match th.mode
    case Want(_) => 1
    case Wait(_, e) => if e < |entries| && entries[e].closed then 2 else 0
    case _ => 0
  }

  function LoadOf(w: Wiring, depth: nat, entries: seq<Entry>, th: Thread): Load {
    if Failing(th) then Load(0, 0, 0, FailingWork(th), 0)
    else Load(1, if th.mode.Close? then 1 else 0,
              if |th.frames| <= depth then depth - |th.frames| else 0,
              LiveWork(w, th), Waits(entries, th))
  }

  /** Earlier components outweigh later ones. */
  datatype Measure = Measure(unready: nat, live: nat, storing: nat, room: nat, work: nat, waits: nat)

  predicate Below(a: Measure, b: Measure) {
    || a.unready < b.unready
    || (a.unready == b.unready && (|| a.live < b.live
    || (a.live == b.live && (|| a.storing < b.storing
    || (a.storing == b.storing && (|| a.room < b.room
    || (a.room == b.room && (|| a.work < b.work
    || (a.work == b.work && a.waits < b.waits)))))))))
  }

  function Plus(a: Load, b: Load): Load {
    Load(a.live + b.live, a.storing + b.storing, a.room + b.room, a.work + b.work, a.waits + b.waits)
  }

  function Total(w: Wiring, depth: nat, entries: seq<Entry>, ts: seq<Thread>): Load {
    if ts == [] then Load(0, 0, 0, 0, 0)
    else Plus(LoadOf(w, depth, entries, ts[0]), Total(w, depth, entries, ts[1..]))
  }

  function MeasureOf(w: Wiring, depth: nat, s: State): Measure {
    var total := Total(w, depth, s.entries, s.threads);
    Measure(|w.graph.Keys - ReadyKeys(s)|, total.live, total.storing, total.room, total.work, total.waits)
  }

  lemma {:induction false} TotalUpdate(w: Wiring, depth: nat, entries: seq<Entry>, ts: seq<Thread>, t: nat, th: Thread)
    requires t < |ts|
    ensures Plus(Total(w, depth, entries, ts[t := th]), LoadOf(w, depth, entries, ts[t]))
            == Plus(Total(w, depth, entries, ts), LoadOf(w, depth, entries, th))
  {
    var ts' := ts[t := th];
    if t == 0 {
      assert ts'[1..] == ts[1..];
    } else {
      assert ts'[1..] == ts[1..][t - 1 := th];
      TotalUpdate(w, depth, entries, ts[1..], t - 1, th);
      PlusCommutes(LoadOf(w, depth, entries, ts[0]), Total(w, depth, entries, ts'[1..]), LoadOf(w, depth, entries, ts[t]));
      PlusCommutes(LoadOf(w, depth, entries, ts[0]), Total(w, depth, entries, ts[1..]), LoadOf(w, depth, entries, th));
    }
  }

  lemma PlusCommutes(a: Load, b: Load, c: Load)
    ensures Plus(Plus(a, b), c) == Plus(a, Plus(b, c))
  {
  }

  /** Which channels are closed matters to the waiting component only. */
  lemma {:induction false} TotalElsewhere(w: Wiring, depth: nat, entries: seq<Entry>, entries': seq<Entry>, ts: seq<Thread>)
    ensures SameButWaits(Total(w, depth, entries, ts), Total(w, depth, entries', ts))
  {
    if ts != [] {
      TotalElsewhere(w, depth, entries, entries', ts[1..]);
    }
  }

  // ------------------------------------------------------- every step lowers it

  predicate SameButWaits(a: Load, b: Load) {
    a.live == b.live && a.storing == b.storing && a.room == b.room && a.work == b.work
  }

  predicate Lighter(a: Load, b: Load) {
    || a.live < b.live
    || (a.live == b.live && (|| a.storing < b.storing
    || (a.storing == b.storing && (|| a.room < b.room
    || (a.room == b.room && a.work < b.work)))))
  }

  /** One thread of a step that stores no value, by what it was doing. */
  lemma OwnLoad(w: Wiring, depth: nat, s: State, t: nat, c: Choice)
    requires Inv(w, s) && Enabled(s, t)
    requires !(s.threads[t].mode.Store? && s.threads[t].mode.res.Val?)
    requires |Step(w, s, t, c).threads[t].frames| <= depth
    ensures var before, after := LoadOf(w, depth, s.entries, s.threads[t]),
                                 LoadOf(w, depth, Step(w, s, t, c).entries, Step(w, s, t, c).threads[t]);
            || Lighter(after, before)
            || (SameButWaits(after, before) && after.waits < before.waits && Step(w, s, t, c).entries == s.entries)
  {
    var th := s.threads[t];
    assert ThreadInv(w, s, t);
    if th.frames != [] {
      assert FrameInv(w, s, t, |th.frames| - 1);
    }
    match th.mode
    case Want(k) =>
      if k in s.slots {
        assert SlotInv(w, s, k);
      }
    case Wait(_, _) =>
    case Run =>
    case Store(_) =>
    case Close(_) =>
    case Deliver(_, _) =>
  }

  /** Storing a value makes one more provider ready; nothing makes one unready. */
  lemma StepUnready(w: Wiring, s: State, t: nat, c: Choice)
    requires Inv(w, s) && Enabled(s, t)
    ensures |w.graph.Keys - ReadyKeys(Step(w, s, t, c))| <= |w.graph.Keys - ReadyKeys(s)|
    ensures s.threads[t].mode.Store? && s.threads[t].mode.res.Val? ==>
              |w.graph.Keys - ReadyKeys(Step(w, s, t, c))| < |w.graph.Keys - ReadyKeys(s)|
  {
    var s' := Step(w, s, t, c);
    var th := s.threads[t];
    var before, after := w.graph.Keys - ReadyKeys(s), w.graph.Keys - ReadyKeys(s');
    forall k | k in ReadyKeys(s) ensures k in ReadyKeys(s') {
      StepKeepsReady(w, s, t, c, k);
    }
    assert after <= before;
    CardinalityOfSubset(after, before);
    if th.mode.Store? && th.mode.res.Val? {
      assert ThreadInv(w, s, t) && FrameInv(w, s, t, |th.frames| - 1);
      assert Top(th).key in before && Top(th).key !in after;
    }
  }

  lemma {:induction false} CardinalityOfSubset(a: set<RefKey>, b: set<RefKey>)
    requires a <= b
    ensures |a| <= |b| && (|a| == |b| ==> a == b)
  {
    if a != {} {
      var x :| x in a;
      CardinalityOfSubset(a - {x}, b - {x});
    }
  }

  lemma StepLowers(w: Wiring, depth: nat, s: State, t: nat, c: Choice)
    requires Inv(w, s) && Enabled(s, t)
    requires |Step(w, s, t, c).threads[t].frames| <= depth
    ensures Below(MeasureOf(w, depth, Step(w, s, t, c)), MeasureOf(w, depth, s))
  {
    var s' := Step(w, s, t, c);
    StepUnready(w, s, t, c);
    if !(s.threads[t].mode.Store? && s.threads[t].mode.res.Val?) {
      OwnLoad(w, depth, s, t, c);
      StepMovesOne(w, s, t, c);
      TotalUpdate(w, depth, s.entries, s.threads, t, s'.threads[t]);
      TotalElsewhere(w, depth, s.entries, s'.entries, s'.threads);
      TotalElsewhere(w, depth, s.entries, s'.entries, [s'.threads[t]]);
      LighterTotal(LoadOf(w, depth, s.entries, s.threads[t]), LoadOf(w, depth, s.entries, s'.threads[t]),
                   Total(w, depth, s.entries, s.threads), Total(w, depth, s.entries, s'.threads));
    }
  }

  lemma LighterTotal(own: Load, own': Load, all: Load, all': Load)
    requires Plus(all', own) == Plus(all, own')
    ensures Lighter(own', own) ==> Lighter(all', all)
    ensures SameButWaits(own', own) && own'.waits < own.waits ==> SameButWaits(all', all) && all'.waits < all.waits
  {
  }

  // ------------------------------------------------------------ no endless run

  /** The state after the first n turns of an endless schedule. */
  function After(w: Wiring, s: State, schedule: nat -> Event, n: nat): State {
    if n == 0 then s
    else
      var before := After(w, s, schedule, n - 1);
      var e := schedule(n - 1);
      if Enabled(before, e.thread) then Step(w, before, e.thread, e.choice) else before
  }

  lemma {:induction false} AfterInv(w: Wiring, s: State, schedule: nat -> Event, n: nat)
    requires Inv(w, s)
    ensures Inv(w, After(w, s, schedule, n))
  {
    if n > 0 {
      AfterInv(w, s, schedule, n - 1);
      var before, e := After(w, s, schedule, n - 1), schedule(n - 1);
      if Enabled(before, e.thread) {
        StepInv(w, before, e.thread, e.choice);
      }
    }
  }

  lemma NextTurn(w: Wiring, topo: seq<RefKey>, s: State, schedule: nat -> Event, n: nat)
    requires Inv(w, s) && TopologicalOrder(w.graph, w.errs, topo)
    requires Enabled(After(w, s, schedule, n), schedule(n).thread)
    ensures Below(MeasureOf(w, |topo|, After(w, s, schedule, n + 1)), MeasureOf(w, |topo|, After(w, s, schedule, n)))
  {
    var now, e := After(w, s, schedule, n), schedule(n);
    AfterInv(w, s, schedule, n);
    StepInv(w, now, e.thread, e.choice);
    RecursionIsBounded(w, topo, Step(w, now, e.thread, e.choice), e.thread);
    StepLowers(w, |topo|, now, e.thread, e.choice);
  }

  /** From turn n on, some turn finds its thread unable to move. */
  lemma {:induction false} RunsDry(w: Wiring, topo: seq<RefKey>, s: State, schedule: nat -> Event, n: nat, m: Measure)
    returns (i: nat)
    requires Inv(w, s) && TopologicalOrder(w.graph, w.errs, topo)
    requires m == MeasureOf(w, |topo|, After(w, s, schedule, n))
    ensures n <= i && !Enabled(After(w, s, schedule, i), schedule(i).thread)
    decreases m.unready, m.live, m.storing, m.room, m.work, m.waits
  {
    if !Enabled(After(w, s, schedule, n), schedule(n).thread) {
      return n;
    }
    NextTurn(w, topo, s, schedule, n);
    i := RunsDry(w, topo, s, schedule, n + 1, MeasureOf(w, |topo|, After(w, s, schedule, n + 1)));
  }

  /** Whenever some thread can move, the schedule picks one that can. */
  ghost predicate Diligent(w: Wiring, s: State, schedule: nat -> Event) {
    forall n: nat :: (exists u: nat :: Enabled(After(w, s, schedule, n), u)) ==>
                       Enabled(After(w, s, schedule, n), schedule(n).thread)
  }

  /**
   * A scheduler that picks a thread that can move whenever there is one
   * reaches a state in which every call has returned.
   */
  lemma EveryCallReturns(w: Wiring, topo: seq<RefKey>, keys: seq<RefKey>, schedule: nat -> Event)
    requires TopologicalOrder(w.graph, w.errs, topo)
    requires Diligent(w, Init(keys), schedule)
    ensures exists n: nat :: forall t :: 0 <= t < |keys| ==> !Unfinished(After(w, Init(keys), schedule, n), t)
  {
    InitInv(w, keys);
    var i := RunsDry(w, topo, Init(keys), schedule, 0, MeasureOf(w, |topo|, Init(keys)));
    AfterInv(w, Init(keys), schedule, i);
    var last := After(w, Init(keys), schedule, i);
    forall t | 0 <= t < |keys| ensures !Unfinished(last, t) {
      if Unfinished(last, t) {
        var u := FollowOwners(w, topo, last, t);
      }
    }
  }
}
