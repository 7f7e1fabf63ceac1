/**
 * poolRegistry.borrow of container/pools.go: any number of services borrowing
 * shared pools at once. A critical section of mu is one step.
 */
module Pools {
  import opened Basics

  /** One service's call: its options come down to the connection cap. */
  datatype Borrower = Borrower(service: string, maxConns: int, key: string, backend: string)

  datatype Res = Conn(conn: int) | OpenFailed(e: int)

  /** building says an open is in flight, under the channel with this number. */
  datatype Pool =
    | Building(backend: string, ready: nat)
    | Open(backend: string, conn: int, knobs: int, services: seq<string>)

  /** A ready channel, made by the call owner. */
  datatype Channel = Channel(owner: nat, closed: bool)

  datatype Mode =
    | Want
    | Wait(ready: nat)
    | Opening(ready: nat)
    | Signal(ready: nat, res: Res)
    | Mismatched(conn: int, have: int)
    | Done(res: Res)

  datatype PoolMismatch = PoolMismatch(service: string, want: int, have: int)

  datatype State = State(
    pools: map<string, Pool>, channels: seq<Channel>, mismatchLog: seq<PoolMismatch>, modes: seq<Mode>)

  function Init(n: nat): State {
    State(map[], [], [], seq(n, _ => Want))
  }

  predicate Enabled(calls: seq<Borrower>, s: State, t: nat) {
    && t < |s.modes| && t < |calls|
    && match s.modes[t]
       case Want => true
       case Wait(r) => r < |s.channels| && s.channels[r].closed
       case Opening(_) => true
       case Signal(r, _) => r < |s.channels|
       case Mismatched(_, _) => true
       case Done(_) => false
  }

  /** containsService and the append it guards. */
  function Recorded(services: seq<string>, service: string): (r: seq<string>)
    ensures service in r && forall x :: x in r <==> x in services || x == service
    ensures services <= r
  {
    if service in services then services else services + [service]
  }

  predicate IgnoresCap(b: Borrower, have: int) {
    b.maxConns != 0 && b.maxConns != have
  }

  /** outcome is what the opener returns, for the step that receives it. */
  function Step(calls: seq<Borrower>, s: State, t: nat, outcome: Res): State
    requires Enabled(calls, s, t)
  {
    var b := calls[t];
    match s.modes[t]
    case Want =>
      if b.key !in s.pools then
        State(s.pools[b.key := Building(b.backend, |s.channels|)], s.channels + [Channel(t, false)],
              s.mismatchLog, s.modes[t := Opening(|s.channels|)])
      else (match s.pools[b.key]
        case Building(_, r) => s.(modes := s.modes[t := Wait(r)])
        case Open(backend, conn, knobs, services) =>
          State(s.pools[b.key := Open(backend, conn, knobs, Recorded(services, b.service))],
                s.channels, s.mismatchLog,
                s.modes[t := if IgnoresCap(b, knobs) then Mismatched(conn, knobs) else Done(Conn(conn))]))
    case Wait(_) => s.(modes := s.modes[t := Want])
    case Opening(r) =>
      State(match outcome
              case OpenFailed(_) => s.pools - {b.key}
              case Conn(c) => s.pools[b.key := Open(b.backend, c, b.maxConns, [b.service])],
            s.channels, s.mismatchLog, s.modes[t := Signal(r, outcome)])
    case Signal(r, res) =>
      s.(channels := s.channels[r := s.channels[r].(closed := true)], modes := s.modes[t := Done(res)])
    case Mismatched(conn, have) =>
      s.(mismatchLog := s.mismatchLog + [PoolMismatch(b.service, b.maxConns, have)], modes := s.modes[t := Done(Conn(conn))])
    case Done(_) => s
  }

  // --------------------------------------------------------------- invariant

  predicate IsOpen(s: State, k: string) {
    k in s.pools && s.pools[k].Open?
  }

  /** The connection a call has been promised, if it has. */
  function Promised(m: Mode): Option<int> {
    match m
    case Signal(_, Conn(c)) => Some(c)
    case Done(Conn(c)) => Some(c)
    case Mismatched(c, _) => Some(c)
    case _ => None
  }

  predicate Has(s: State, b: Borrower, conn: int) {
    IsOpen(s, b.key) && s.pools[b.key].conn == conn && b.service in s.pools[b.key].services
  }

  predicate ModeInv(calls: seq<Borrower>, s: State, t: nat)
    requires t < |calls| && t < |s.modes|
  {
    && (Promised(s.modes[t]).Some? ==> Has(s, calls[t], Promised(s.modes[t]).value))
    && match s.modes[t]
       case Wait(r) => r < |s.channels|
       case Opening(r) =>
         && r < |s.channels| && s.channels[r] == Channel(t, false)
         && calls[t].key in s.pools && s.pools[calls[t].key] == Building(calls[t].backend, r)
       case Signal(r, _) => r < |s.channels| && s.channels[r] == Channel(t, false)
       case Mismatched(_, have) => IsOpen(s, calls[t].key) && have == s.pools[calls[t].key].knobs && IgnoresCap(calls[t], have)
       case _ => true
  }

  /** Some call for k by this service was promised a connection. */
  predicate Borrowed(calls: seq<Borrower>, s: State, k: string, service: string)
    requires |calls| == |s.modes|
  {
    exists t :: 0 <= t < |calls| && calls[t].key == k && calls[t].service == service && Promised(s.modes[t]).Some?
  }

  predicate PoolInv(calls: seq<Borrower>, s: State, k: string)
    requires |calls| == |s.modes| && k in s.pools
  {
    match s.pools[k]
    case Building(_, r) =>
      && r < |s.channels| && s.channels[r].owner < |calls|
      && calls[s.channels[r].owner].key == k && s.modes[s.channels[r].owner] == Opening(r)
    case Open(_, _, _, services) =>
      && Distinct(services)
      && (forall x :: x in services ==> Borrowed(calls, s, k, x))
  }

  /** A channel is open while its maker has a build to settle. */
  predicate ChannelInv(calls: seq<Borrower>, s: State, r: nat)
    requires |calls| == |s.modes| && r < |s.channels|
  {
    !s.channels[r].closed ==>
      && s.channels[r].owner < |calls|
      && match s.modes[s.channels[r].owner]
         case Opening(x) => x == r
         case Signal(x, _) => x == r
         case _ => false
  }

  predicate Inv(calls: seq<Borrower>, s: State) {
    && |calls| == |s.modes|
    && (forall t :: 0 <= t < |calls| ==> ModeInv(calls, s, t))
    && (forall k :: k in s.pools ==> PoolInv(calls, s, k))
    && (forall r :: 0 <= r < |s.channels| ==> ChannelInv(calls, s, r))
  }

  /** At most one open is in flight for a key. */
  lemma OneOpenPerKey(calls: seq<Borrower>, s: State, t: nat, u: nat)
    requires Inv(calls, s) && t < |calls| && u < |calls| && calls[t].key == calls[u].key
    requires s.modes[t].Opening? && s.modes[u].Opening?
    ensures t == u
  {
    assert ModeInv(calls, s, t) && ModeInv(calls, s, u);
  }

  lemma StepOthers(calls: seq<Borrower>, s: State, t: nat, outcome: Res)
    requires Enabled(calls, s, t)
    ensures Step(calls, s, t, outcome).modes == s.modes[t := Step(calls, s, t, outcome).modes[t]]
  {
  }

  /** A pool stays the same pool: later borrowers only add their names. */
  predicate SamePool(p: Pool, q: Pool) {
    p.Open? && q.Open? && q.backend == p.backend && q.conn == p.conn && q.knobs == p.knobs && p.services <= q.services
  }

  lemma StepKeepsPool(calls: seq<Borrower>, s: State, t: nat, outcome: Res, k: string)
    requires Inv(calls, s) && Enabled(calls, s, t) && IsOpen(s, k)
    ensures IsOpen(Step(calls, s, t, outcome), k) && SamePool(s.pools[k], Step(calls, s, t, outcome).pools[k])
  {
    assert ModeInv(calls, s, t);
  }

  lemma StepMode(calls: seq<Borrower>, s: State, t: nat, outcome: Res, u: nat)
    requires Inv(calls, s) && Enabled(calls, s, t) && u < |calls|
    ensures ModeInv(calls, Step(calls, s, t, outcome), u)
  {
    assert ModeInv(calls, s, t) && ModeInv(calls, s, u);
    if calls[t].key in s.pools {
      assert PoolInv(calls, s, calls[t].key);
    }
    if IsOpen(s, calls[u].key) {
      StepKeepsPool(calls, s, t, outcome, calls[u].key);
    }
    match s.modes[t]
    case Want =>
    case Wait(_) =>
    case Opening(_) =>
    case Signal(_, _) =>
    case Mismatched(_, _) =>
  }

  lemma StepBorrowed(calls: seq<Borrower>, s: State, t: nat, outcome: Res, k: string, x: string)
    requires |calls| == |s.modes| && Enabled(calls, s, t) && Borrowed(calls, s, k, x)
    ensures |Step(calls, s, t, outcome).modes| == |calls| && Borrowed(calls, Step(calls, s, t, outcome), k, x)
  {
    var u :| 0 <= u < |calls| && calls[u].key == k && calls[u].service == x && Promised(s.modes[u]).Some?;
    assert Promised(Step(calls, s, t, outcome).modes[u]).Some?;
  }

  lemma StepPool(calls: seq<Borrower>, s: State, t: nat, outcome: Res, k: string)
    requires Inv(calls, s) && Enabled(calls, s, t) && k in Step(calls, s, t, outcome).pools
    ensures |Step(calls, s, t, outcome).modes| == |calls| && PoolInv(calls, Step(calls, s, t, outcome), k)
  {
    var s' := Step(calls, s, t, outcome);
    assert ModeInv(calls, s, t);
    if k in s.pools {
      assert PoolInv(calls, s, k);
      if s.pools[k].Open? {
        StepKeepsPool(calls, s, t, outcome, k);
        forall x | x in s.pools[k].services ensures Borrowed(calls, s', k, x) {
          StepBorrowed(calls, s, t, outcome, k, x);
        }
      }
    }
    match s.modes[t]
    case Want =>
    case Wait(_) =>
    case Opening(_) =>
    case Signal(_, _) =>
    case Mismatched(_, _) =>
  }

  lemma StepChannel(calls: seq<Borrower>, s: State, t: nat, outcome: Res, r: nat)
    requires Inv(calls, s) && Enabled(calls, s, t) && r < |Step(calls, s, t, outcome).channels|
    ensures |Step(calls, s, t, outcome).modes| == |calls| && ChannelInv(calls, Step(calls, s, t, outcome), r)
  {
    assert ModeInv(calls, s, t);
    if r < |s.channels| {
      assert ChannelInv(calls, s, r);
    }
    match s.modes[t]
    case Want =>
    case Wait(_) =>
    case Opening(_) =>
    case Signal(_, _) =>
    case Mismatched(_, _) =>
  }

  lemma StepInv(calls: seq<Borrower>, s: State, t: nat, outcome: Res)
    requires Inv(calls, s) && Enabled(calls, s, t)
    ensures Inv(calls, Step(calls, s, t, outcome))
  {
    var s' := Step(calls, s, t, outcome);
    StepOthers(calls, s, t, outcome);
    forall u | 0 <= u < |calls| ensures ModeInv(calls, s', u) {
      StepMode(calls, s, t, outcome, u);
    }
    forall k | k in s'.pools ensures PoolInv(calls, s', k) {
      StepPool(calls, s, t, outcome, k);
    }
    forall r | 0 <= r < |s'.channels| ensures ChannelInv(calls, s', r) {
      StepChannel(calls, s, t, outcome, r);
    }
  }

  // -------------------------------------------------------------------- runs

  datatype Event = Event(thread: nat, outcome: Res)

  function Run(calls: seq<Borrower>, s: State, schedule: seq<Event>): State
    decreases |schedule|
  {
    if schedule == [] then s
    else
      var e := schedule[0];
      Run(calls, if Enabled(calls, s, e.thread) then Step(calls, s, e.thread, e.outcome) else s, schedule[1..])
  }

  lemma {:induction false} RunInv(calls: seq<Borrower>, s: State, schedule: seq<Event>)
    requires Inv(calls, s)
    ensures Inv(calls, Run(calls, s, schedule))
    decreases |schedule|
  {
    if schedule != [] {
      var e := schedule[0];
      if Enabled(calls, s, e.thread) {
        StepInv(calls, s, e.thread, e.outcome);
        RunInv(calls, Step(calls, s, e.thread, e.outcome), schedule[1..]);
      } else {
        RunInv(calls, s, schedule[1..]);
      }
    }
  }

  /** An open pool is never replaced or evicted, and its knobs never change. */
  lemma {:induction false} PoolForever(calls: seq<Borrower>, s: State, schedule: seq<Event>, k: string)
    requires Inv(calls, s) && IsOpen(s, k)
    ensures IsOpen(Run(calls, s, schedule), k) && SamePool(s.pools[k], Run(calls, s, schedule).pools[k])
    decreases |schedule|
  {
    if schedule != [] {
      var e := schedule[0];
      if Enabled(calls, s, e.thread) {
        StepInv(calls, s, e.thread, e.outcome);
        StepKeepsPool(calls, s, e.thread, e.outcome, k);
        PoolForever(calls, Step(calls, s, e.thread, e.outcome), schedule[1..], k);
      } else {
        PoolForever(calls, s, schedule[1..], k);
      }
    }
  }

  predicate Returned(s: State, t: nat, conn: int) {
    t < |s.modes| && s.modes[t] == Done(Conn(conn))
  }

  /** All who borrow under one key, at any time, hold one connection. */
  lemma BorrowersShare(calls: seq<Borrower>, first: seq<Event>, more: seq<Event>, t: nat, u: nat, c: int, d: int)
    requires t < |calls| && u < |calls| && calls[t].key == calls[u].key
    requires Returned(Run(calls, Init(|calls|), first), t, c)
    requires Returned(Run(calls, Run(calls, Init(|calls|), first), more), u, d)
    ensures c == d
  {
    RunInv(calls, Init(|calls|), first);
    var mid := Run(calls, Init(|calls|), first);
    RunInv(calls, mid, more);
    assert ModeInv(calls, mid, t) && ModeInv(calls, Run(calls, mid, more), u);
    PoolForever(calls, mid, more, calls[t].key);
  }

  /** The first successful open sets the cap and backend for good. */
  lemma FirstOpenerDecides(calls: seq<Borrower>, s: State, t: nat, c: int, later: seq<Event>)
    requires Inv(calls, s) && Enabled(calls, s, t) && s.modes[t].Opening?
    ensures var end := Run(calls, Step(calls, s, t, Conn(c)), later);
            IsOpen(end, calls[t].key) && SamePool(Open(calls[t].backend, c, calls[t].maxConns, [calls[t].service]), end.pools[calls[t].key])
  {
    StepInv(calls, s, t, Conn(c));
    PoolForever(calls, Step(calls, s, t, Conn(c)), later, calls[t].key);
  }

  /** A failed open leaves no entry, and the next call to look for the pool opens it anew. */
  lemma FailedOpenIsRetried(calls: seq<Borrower>, s: State, t: nat, e: int, u: nat, outcome: Res)
    requires Inv(calls, s) && Enabled(calls, s, t) && s.modes[t].Opening?
    requires u < |calls| && calls[u].key == calls[t].key && s.modes[u] == Want
    ensures var s', k := Step(calls, s, t, OpenFailed(e)), calls[t].key;
            && k in s.pools && s'.pools == s.pools - {k} && Enabled(calls, s', u)
            && var s'' := Step(calls, s', u, outcome);
               s''.modes[u] == Opening(|s'.channels|) && s''.pools == s'.pools[k := Building(calls[u].backend, |s'.channels|)]
  {
    assert ModeInv(calls, s, t);
  }

  /** When all calls have returned, a pool lists exactly the services that hold it, once each. */
  lemma ServicesAreTheBorrowers(calls: seq<Borrower>, schedule: seq<Event>, k: string, x: string)
    requires var s := Run(calls, Init(|calls|), schedule);
             IsOpen(s, k) && forall t :: 0 <= t < |s.modes| ==> s.modes[t].Done?
    ensures var s := Run(calls, Init(|calls|), schedule);
            && |s.modes| == |calls| && Distinct(s.pools[k].services)
            && (x in s.pools[k].services <==>
                  exists t :: 0 <= t < |calls| && calls[t].key == k && calls[t].service == x && s.modes[t].res.Conn?)
  {
    RunInv(calls, Init(|calls|), schedule);
    var s := Run(calls, Init(|calls|), schedule);
    assert PoolInv(calls, s, k);
    if x in s.pools[k].services {
      var t :| 0 <= t < |calls| && calls[t].key == k && calls[t].service == x && Promised(s.modes[t]).Some?;
      assert s.modes[t].res.Conn?;
    }
    if t :| 0 <= t < |calls| && calls[t].key == k && calls[t].service == x && s.modes[t].res.Conn? {
      assert ModeInv(calls, s, t);
    }
  }

  // ------------------------------------------------------------- mismatch log

  /** The warning call t has put on record, if it has its connection and asked for a cap that is not the pool's. */
  function Owed(calls: seq<Borrower>, s: State, t: nat): multiset<PoolMismatch>
    requires t < |calls| && t < |s.modes|
  {
    var b := calls[t];
    if s.modes[t].Done? && s.modes[t].res.Conn? && IsOpen(s, b.key) && b.maxConns != 0 && b.maxConns != s.pools[b.key].knobs
    then multiset{PoolMismatch(b.service, b.maxConns, s.pools[b.key].knobs)}
    else multiset{}
  }

  function Union(os: seq<multiset<PoolMismatch>>): multiset<PoolMismatch> {
    if os == [] then multiset{} else os[0] + Union(os[1..])
  }

  lemma {:induction false} UnionUpdate(os: seq<multiset<PoolMismatch>>, t: nat, o: multiset<PoolMismatch>)
    requires t < |os|
    ensures Union(os[t := o]) + os[t] == Union(os) + o
  {
    if t == 0 {
      assert os[t := o][1..] == os[1..];
    } else {
      assert os[t := o][1..] == os[1..][t - 1 := o];
      UnionUpdate(os[1..], t - 1, o);
      calc {
        Union(os[t := o]) + os[t];
        os[0] + (Union(os[1..][t - 1 := o]) + os[1..][t - 1]);
        os[0] + (Union(os[1..]) + o);
        Union(os) + o;
      }
    }
  }

  function AllOwed(calls: seq<Borrower>, s: State): seq<multiset<PoolMismatch>>
    requires |calls| == |s.modes|
  {
    seq(|calls|, t requires 0 <= t < |calls| => Owed(calls, s, t))
  }

  /** A call whose mode and whose pool stay the same owes the same. */
  lemma OwedAlike(calls: seq<Borrower>, s: State, s': State, u: nat)
    requires u < |calls| && u < |s.modes| && u < |s'.modes| && s'.modes[u] == s.modes[u]
    requires s.modes[u].Done? && s.modes[u].res.Conn? ==>
               IsOpen(s, calls[u].key) && IsOpen(s', calls[u].key) && SamePool(s.pools[calls[u].key], s'.pools[calls[u].key])
    ensures Owed(calls, s', u) == Owed(calls, s, u)
  {
  }

  lemma OwedByOthers(calls: seq<Borrower>, s: State, t: nat, outcome: Res, u: nat)
    requires Inv(calls, s) && Enabled(calls, s, t) && u < |calls| && u != t
    ensures |Step(calls, s, t, outcome).modes| == |calls| && Owed(calls, Step(calls, s, t, outcome), u) == Owed(calls, s, u)
  {
    StepOthers(calls, s, t, outcome);
    assert ModeInv(calls, s, u);
    if s.modes[u].Done? && s.modes[u].res.Conn? {
      StepKeepsPool(calls, s, t, outcome, calls[u].key);
    }
    OwedAlike(calls, s, Step(calls, s, t, outcome), u);
  }

  lemma AllOwedMoves(calls: seq<Borrower>, s: State, t: nat, outcome: Res)
    requires Inv(calls, s) && Enabled(calls, s, t)
    ensures |Step(calls, s, t, outcome).modes| == |calls|
    ensures AllOwed(calls, Step(calls, s, t, outcome)) == AllOwed(calls, s)[t := Owed(calls, Step(calls, s, t, outcome), t)]
  {
    forall u | 0 <= u < |calls| && u != t
      ensures |Step(calls, s, t, outcome).modes| == |calls| && Owed(calls, Step(calls, s, t, outcome), u) == Owed(calls, s, u)
    {
      OwedByOthers(calls, s, t, outcome, u);
    }
  }

  /** The opener's own cap is the pool's: it is owed no warning. */
  predicate Logged(calls: seq<Borrower>, s: State) {
    && |calls| == |s.modes|
    && multiset(s.mismatchLog) == Union(AllOwed(calls, s))
    && (forall t :: 0 <= t < |calls| ==> OpenerInv(calls, s, t))
  }

  predicate OpenerInv(calls: seq<Borrower>, s: State, t: nat)
    requires t < |calls| && t < |s.modes|
  {
    s.modes[t].Signal? && s.modes[t].res.Conn? ==> IsOpen(s, calls[t].key) && s.pools[calls[t].key].knobs == calls[t].maxConns
  }

  lemma StepOpener(calls: seq<Borrower>, s: State, t: nat, outcome: Res, u: nat)
    requires Inv(calls, s) && Enabled(calls, s, t) && u < |calls| && OpenerInv(calls, s, u)
    ensures |Step(calls, s, t, outcome).modes| == |calls| && OpenerInv(calls, Step(calls, s, t, outcome), u)
  {
    assert ModeInv(calls, s, t) && ModeInv(calls, s, u);
    if IsOpen(s, calls[u].key) {
      StepKeepsPool(calls, s, t, outcome, calls[u].key);
    }
  }

  lemma StepOwed(calls: seq<Borrower>, s: State, t: nat, outcome: Res)
    requires Inv(calls, s) && Enabled(calls, s, t) && OpenerInv(calls, s, t)
    ensures |Step(calls, s, t, outcome).modes| == |calls|
    ensures multiset(Step(calls, s, t, outcome).mismatchLog) + Owed(calls, s, t)
            == multiset(s.mismatchLog) + Owed(calls, Step(calls, s, t, outcome), t)
  {
    assert ModeInv(calls, s, t);
    assert Owed(calls, s, t) == multiset{};
    if s.modes[t].Mismatched? {
      assert Owed(calls, Step(calls, s, t, outcome), t) == multiset{PoolMismatch(calls[t].service, calls[t].maxConns, s.modes[t].have)};
    } else {
      assert Owed(calls, Step(calls, s, t, outcome), t) == multiset{};
      assert Step(calls, s, t, outcome).mismatchLog == s.mismatchLog;
    }
  }

  lemma StepLogged(calls: seq<Borrower>, s: State, t: nat, outcome: Res)
    requires Inv(calls, s) && Enabled(calls, s, t) && Logged(calls, s)
    ensures Logged(calls, Step(calls, s, t, outcome))
  {
    var s' := Step(calls, s, t, outcome);
    AllOwedMoves(calls, s, t, outcome);
    UnionUpdate(AllOwed(calls, s), t, Owed(calls, s', t));
    assert OpenerInv(calls, s, t);
    StepOwed(calls, s, t, outcome);
    forall u | 0 <= u < |calls| ensures OpenerInv(calls, s', u) {
      StepOpener(calls, s, t, outcome, u);
    }
    Cancel(multiset(s.mismatchLog), multiset(s'.mismatchLog), Union(AllOwed(calls, s')), Owed(calls, s, t), Owed(calls, s', t));
  }

  lemma Cancel<T>(log: multiset<T>, log': multiset<T>, all': multiset<T>, own: multiset<T>, own': multiset<T>)
    requires log' + own == log + own' && all' + own == log + own'
    ensures log' == all'
  {
    assert log' == (log' + own) - own && all' == (all' + own) - own;
  }

  lemma {:induction false} RunLogged(calls: seq<Borrower>, s: State, schedule: seq<Event>)
    requires Inv(calls, s) && Logged(calls, s)
    ensures Logged(calls, Run(calls, s, schedule))
    decreases |schedule|
  {
    if schedule != [] {
      var e := schedule[0];
      if Enabled(calls, s, e.thread) {
        StepInv(calls, s, e.thread, e.outcome);
        StepLogged(calls, s, e.thread, e.outcome);
        RunLogged(calls, Step(calls, s, e.thread, e.outcome), schedule[1..]);
      } else {
        RunLogged(calls, s, schedule[1..]);
      }
    }
  }

  lemma {:induction false} NothingOwed(os: seq<multiset<PoolMismatch>>)
    requires forall i :: 0 <= i < |os| ==> os[i] == multiset{}
    ensures Union(os) == multiset{}
  {
    if os != [] {
      NothingOwed(os[1..]);
    }
  }

  /** At every moment of every run the log holds one warning for each returned call whose cap was ignored, and no other. */
  lemma LogIsComplete(calls: seq<Borrower>, schedule: seq<Event>)
    ensures var s := Run(calls, Init(|calls|), schedule);
            |calls| == |s.modes| && multiset(s.mismatchLog) == Union(AllOwed(calls, s))
  {
    NothingOwed(AllOwed(calls, Init(|calls|)));
    RunLogged(calls, Init(|calls|), schedule);
  }

  // ---------------------------------------------------------------- liveness

  /** Whoever a waiter waits for can move: no call is wedged. */
  lemma NoWaiterIsWedged(calls: seq<Borrower>, s: State, t: nat)
    requires Inv(calls, s) && t < |calls| && !s.modes[t].Done?
    ensures Enabled(calls, s, t) || (s.modes[t].Wait? && s.modes[t].ready < |s.channels|
                                     && Enabled(calls, s, s.channels[s.modes[t].ready].owner))
  {
    assert ModeInv(calls, s, t);
    if s.modes[t].Wait? {
      assert ChannelInv(calls, s, s.modes[t].ready);
    }
  }

  /** How far a call has to go, when between two such moves its n waiters turn at most twice each. */
  function Stage(n: nat, m: Mode): nat {
    match m
    case Want => 6 * n + 3
    case Wait(_) => 6 * n + 3
    case Opening(_) => 4 * n + 2
    case Signal(_, _) => 2 * n + 1
    case Mismatched(_, _) => 2 * n + 1
    case Done(_) => 0
  }

  function Turns(channels: seq<Channel>, m: Mode): nat {
    match m
    case Want => 1
    case Wait(r) => if r < |channels| && channels[r].closed then 2 else 0
    case _ => 0
  }

  function Stages(n: nat, modes: seq<Mode>): nat {
    if modes == [] then 0 else Stage(n, modes[0]) + Stages(n, modes[1..])
  }

  function AllTurns(channels: seq<Channel>, modes: seq<Mode>): nat {
    if modes == [] then 0 else Turns(channels, modes[0]) + AllTurns(channels, modes[1..])
  }

  lemma {:induction false} StagesUpdate(n: nat, channels: seq<Channel>, modes: seq<Mode>, t: nat, m: Mode)
    requires t < |modes|
    ensures Stages(n, modes[t := m]) + Stage(n, modes[t]) == Stages(n, modes) + Stage(n, m)
    ensures AllTurns(channels, modes[t := m]) + Turns(channels, modes[t]) == AllTurns(channels, modes) + Turns(channels, m)
  {
    var modes' := modes[t := m];
    if t == 0 {
      assert modes'[1..] == modes[1..];
    } else {
      assert modes'[1..] == modes[1..][t - 1 := m];
      StagesUpdate(n, channels, modes[1..], t - 1, m);
    }
  }

  lemma {:induction false} TurnsBounded(channels: seq<Channel>, modes: seq<Mode>)
    ensures AllTurns(channels, modes) <= 2 * |modes|
  {
    if modes != [] {
      TurnsBounded(channels, modes[1..]);
    }
  }

  function Left(s: State): nat {
    Stages(|s.modes|, s.modes) + AllTurns(s.channels, s.modes)
  }

  lemma StepLowers(calls: seq<Borrower>, s: State, t: nat, outcome: Res)
    requires Inv(calls, s) && Enabled(calls, s, t)
    ensures Left(Step(calls, s, t, outcome)) < Left(s)
  {
    var s' := Step(calls, s, t, outcome);
    assert ModeInv(calls, s, t);
    StepOthers(calls, s, t, outcome);
    StagesUpdate(|s.modes|, s.channels, s.modes, t, s'.modes[t]);
    TurnsBounded(s'.channels, s'.modes);
    match s.modes[t]
    case Want =>
      if calls[t].key in s.pools && s.pools[calls[t].key].Building? {
        assert PoolInv(calls, s, calls[t].key);
        assert ModeInv(calls, s, s.channels[s.pools[calls[t].key].ready].owner);
      }
    case Wait(_) =>
    case Opening(_) =>
    case Signal(_, _) =>
    case Mismatched(_, _) =>
  }

  function Moves(calls: seq<Borrower>, s: State, schedule: seq<Event>): nat
    decreases |schedule|
  {
    if schedule == [] then 0
    else
      var e := schedule[0];
      if Enabled(calls, s, e.thread) then 1 + Moves(calls, Step(calls, s, e.thread, e.outcome), schedule[1..])
      else Moves(calls, s, schedule[1..])
  }

  /** No schedule makes n calls step more than so often. */
  lemma {:induction false} StepsBounded(calls: seq<Borrower>, s: State, schedule: seq<Event>)
    requires Inv(calls, s)
    ensures Moves(calls, s, schedule) + Left(Run(calls, s, schedule)) <= Left(s)
    decreases |schedule|
  {
    if schedule != [] {
      var e := schedule[0];
      if Enabled(calls, s, e.thread) {
        StepInv(calls, s, e.thread, e.outcome);
        StepLowers(calls, s, e.thread, e.outcome);
        StepsBounded(calls, Step(calls, s, e.thread, e.outcome), schedule[1..]);
      } else {
        StepsBounded(calls, s, schedule[1..]);
      }
    }
  }

  lemma {:induction false} StagesOfWant(n: nat, k: nat)
    ensures Stages(n, seq(k, _ => Want)) + AllTurns([], seq(k, _ => Want)) == k * (6 * n + 4)
  {
    if k > 0 {
      assert seq(k, _ => Want)[1..] == seq(k - 1, _ => Want);
      StagesOfWant(n, k - 1);
    }
  }

  /** n calls of borrow take no more steps than this, whatever fails and however often they retry. */
  lemma BorrowsEnd(calls: seq<Borrower>, schedule: seq<Event>)
    ensures Moves(calls, Init(|calls|), schedule) <= |calls| * (6 * |calls| + 4)
  {
    StepsBounded(calls, Init(|calls|), schedule);
    StagesOfWant(|calls|, |calls|);
  }
}
