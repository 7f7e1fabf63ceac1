/**
 * resolveProvider and buildProvider of container/provide.go: any number of
 * goroutines resolving providers at once. A critical section of provMu is one
 * step; a thread keeps the builds it is in the middle of as frames.
 */
module Resolve {
  import opened Basics
  import opened ProviderGraph
  import CloseOrder

  /** Read-only once the container is built: the wiring, and whether its one look at the environment fails. */
  datatype Wiring = Wiring(graph: Defs, errs: set<RefKey>, envFails: bool)

  datatype Failure = GraphFailure(key: RefKey) | NotProvided(key: RefKey) | EnvFailure(key: RefKey) | BuildFailure(e: int)

  datatype Res = Val(v: int) | Fail(e: Failure)

  /** provVals: a build in flight, or the value. Failed builds leave nothing. */
  datatype Slot = Building(entry: nat) | Ready(v: int)

  /** One provEntry; closed says its channel is. level is the owner's frame. */
  datatype Entry = Entry(key: RefKey, owner: nat, level: nat, closed: bool)

  /** buildProvider(key) with the values of the dependencies so far; None stands for a zero value. */
  datatype Frame = Frame(key: RefKey, args: seq<Option<int>>, entry: nat)

  datatype Mode =
    | Want(key: RefKey)
    | Wait(key: RefKey, entry: nat)
    | Run
    | Store(res: Res)
    | Close(res: Res)
    | Deliver(key: RefKey, res: Res)
    | Done(key: RefKey, res: Res)

  datatype Thread = Thread(frames: seq<Frame>, mode: Mode)

  datatype State = State(slots: map<RefKey, Slot>, entries: seq<Entry>, threads: seq<Thread>)

  /** What the outside decides: what a factory returns. */
  datatype Choice = Made(v: int) | Broke(e: int)

  function Init(keys: seq<RefKey>): State {
    State(map[], [], seq(|keys|, i requires 0 <= i < |keys| => Thread([], Want(keys[i]))))
  }

  function Top(th: Thread): Frame
    requires th.frames != []
  {
    th.frames[|th.frames| - 1]
  }

  /** Only a channel that is still open makes a thread wait. */
  predicate Enabled(s: State, t: nat) {
    && t < |s.threads|
    && var th := s.threads[t];
       match th.mode
       case Wait(_, e) => e < |s.entries| && s.entries[e].closed
       case Done(_, _) => false
       case Want(_) => true
       case Deliver(_, _) => true
       case Run => th.frames != []
       case Store(_) => th.frames != []
       case Close(_) => th.frames != [] && Top(th).entry < |s.entries|
  }

  function Advance(th: Thread, arg: Option<int>): Thread
    requires th.frames != []
  {
    Thread(th.frames[|th.frames| - 1 := Top(th).(args := Top(th).args + [arg])], Run)
  }

  /** What def.build comes to. */
  function BuildResult(c: Choice): Res {
    match c
    case Made(v) => Val(v)
    case Broke(e) => Fail(BuildFailure(e))
  }

  function Step(w: Wiring, s: State, t: nat, c: Choice): State
    requires Enabled(s, t)
  {
    var th := s.threads[t];
    match th.mode
    case Want(k) =>
      if k in w.errs then s.(threads := s.threads[t := th.(mode := Deliver(k, Fail(GraphFailure(k))))])
      else if k !in w.graph then s.(threads := s.threads[t := th.(mode := Deliver(k, Fail(NotProvided(k))))])
      else if k !in s.slots then
        State(s.slots[k := Building(|s.entries|)],
              s.entries + [Entry(k, t, |th.frames|, false)],
              s.threads[t := Thread(th.frames + [Frame(k, [], |s.entries|)], Run)])
      else
        s.(threads := s.threads[t := th.(mode :=
          match s.slots[k]
          case Building(e) => Wait(k, e)
          case Ready(v) => Deliver(k, Val(v)))])
    case Wait(k, _) => s.(threads := s.threads[t := th.(mode := Want(k))])
    case Run =>
      var fr := Top(th);
      if fr.args == [] && w.envFails then s.(threads := s.threads[t := th.(mode := Store(Fail(EnvFailure(fr.key))))])
      else if fr.key in w.graph && |fr.args| < |w.graph[fr.key].deps| then
        var d := w.graph[fr.key].deps[|fr.args|];
        s.(threads := s.threads[t := if d !in w.graph && w.graph[fr.key].optional then Advance(th, None) else th.(mode := Want(d))])
      else s.(threads := s.threads[t := th.(mode := Store(BuildResult(c)))])
    case Store(res) =>
      var k := Top(th).key;
      State(match res case Val(v) => s.slots[k := Ready(v)] case Fail(_) => s.slots - {k},
            s.entries, s.threads[t := th.(mode := Close(res))])
    case Close(res) =>
      var fr := Top(th);
      State(s.slots, s.entries[fr.entry := s.entries[fr.entry].(closed := true)],
            s.threads[t := Thread(th.frames[..|th.frames| - 1], Deliver(fr.key, res))])
    case Deliver(k, res) =>
      s.(threads := s.threads[t :=
        if th.frames == [] then th.(mode := Done(k, res))
        else if res.Fail? then th.(mode := Store(res))
        else Advance(th, Some(res.v))])
  }

  // --------------------------------------------------------------- invariant

  predicate IsReady(s: State, k: RefKey) {
    k in s.slots && s.slots[k].Ready?
  }

  predicate HasValue(s: State, k: RefKey, res: Res) {
    res.Val? ==> k in s.slots && s.slots[k] == Ready(res.v)
  }

  /** A build in the middle: its entry is open and, until stored, its slot says so. */
  predicate FrameInv(w: Wiring, s: State, t: nat, j: nat) {
    && t < |s.threads| && j < |s.threads[t].frames|
    && var th := s.threads[t];
    var fr := th.frames[j];
    && fr.key in w.graph && fr.key !in w.errs
    && |fr.args| <= |w.graph[fr.key].deps|
    && fr.entry < |s.entries| && s.entries[fr.entry] == Entry(fr.key, t, j, false)
    && ((j == |th.frames| - 1 && th.mode.Close?) || (fr.key in s.slots && s.slots[fr.key] == Building(fr.entry)))
    && (forall i :: 0 <= i < |fr.args| ==> IsArg(w, s, w.graph[fr.key].deps[i], fr.args[i]))
    && (w.graph[fr.key].optional || AllGiven(fr.args))
    && (j + 1 < |th.frames| ==> Pending(w, fr, th.frames[j + 1].key))
  }

  /** The value of dependency d, or the zero value where nobody provides it. */
  predicate IsArg(w: Wiring, s: State, d: RefKey, arg: Option<int>) {
    if d in w.graph then arg.Some? && d in s.slots && s.slots[d] == Ready(arg.value) else arg == None
  }

  predicate AllGiven(args: seq<Option<int>>) {
    forall i :: 0 <= i < |args| ==> args[i].Some?
  }

  /** key is the dependency the frame is waiting for. */
  predicate Pending(w: Wiring, fr: Frame, key: RefKey) {
    fr.key in w.graph && |fr.args| < |w.graph[fr.key].deps| && w.graph[fr.key].deps[|fr.args|] == key
    && (key in w.graph || !w.graph[fr.key].optional)
  }

  predicate ModeInv(w: Wiring, s: State, th: Thread) {
    match th.mode
    case Want(k) => th.frames != [] ==> Pending(w, Top(th), k)
    case Wait(k, e) => e < |s.entries| && s.entries[e].key == k && (th.frames != [] ==> Pending(w, Top(th), k))
    case Run => th.frames != []
    case Store(res) =>
      th.frames != [] && (res.Val? ==> Top(th).key in w.graph && |Top(th).args| == |w.graph[Top(th).key].deps|)
    case Close(res) => th.frames != [] && HasValue(s, Top(th).key, res)
                       && (Top(th).key in s.slots ==> s.slots[Top(th).key] != Building(Top(th).entry))
    case Deliver(k, res) => HasValue(s, k, res) && (th.frames != [] ==> Pending(w, Top(th), k))
    case Done(k, res) => HasValue(s, k, res) && th.frames == []
  }

  predicate ThreadInv(w: Wiring, s: State, t: nat) {
    t < |s.threads| && ModeInv(w, s, s.threads[t])
  }

  /** An open entry belongs to the frame it says it does. */
  predicate EntryInv(w: Wiring, s: State, e: nat) {
    && e < |s.entries|
    && var en := s.entries[e];
       (!en.closed ==>
          && en.key in w.graph && en.key !in w.errs
          && en.owner < |s.threads| && en.level < |s.threads[en.owner].frames|
          && s.threads[en.owner].frames[en.level].entry == e)
  }

  predicate SlotInv(w: Wiring, s: State, k: RefKey) {
    && k in s.slots && k in w.graph && k !in w.errs
    && match s.slots[k]
       case Building(e) => e < |s.entries| && s.entries[e].key == k && !s.entries[e].closed
       case Ready(_) => forall d :: d in w.graph[k].deps && d in w.graph ==> IsReady(s, d)
  }

  predicate Inv(w: Wiring, s: State) {
    && (forall t :: 0 <= t < |s.threads| ==> ThreadInv(w, s, t))
    && (forall t, j :: 0 <= t < |s.threads| && 0 <= j < |s.threads[t].frames| ==> FrameInv(w, s, t, j))
    && (forall e :: 0 <= e < |s.entries| ==> EntryInv(w, s, e))
    && (forall k :: k in s.slots ==> SlotInv(w, s, k))
  }

  lemma InitInv(w: Wiring, keys: seq<RefKey>)
    ensures Inv(w, Init(keys))
  {
  }

  /** Two unfinished builds of one key are the same build. */
  lemma BuildsAreUnique(w: Wiring, s: State, t: nat, i: nat, u: nat, j: nat)
    requires Inv(w, s) && t < |s.threads| && u < |s.threads|
    requires i < |s.threads[t].frames| && j < |s.threads[u].frames|
    requires s.threads[t].frames[i].key == s.threads[u].frames[j].key
    requires !(i == |s.threads[t].frames| - 1 && s.threads[t].mode.Close?)
    requires !(j == |s.threads[u].frames| - 1 && s.threads[u].mode.Close?)
    ensures t == u && i == j
  {
    assert FrameInv(w, s, t, i) && FrameInv(w, s, u, j);
  }

  /** A resolved provider stays resolved, with its value. */
  lemma StepKeepsReady(w: Wiring, s: State, t: nat, c: Choice, k: RefKey)
    requires Inv(w, s) && Enabled(s, t) && IsReady(s, k)
    ensures k in Step(w, s, t, c).slots && Step(w, s, t, c).slots[k] == s.slots[k]
  {
    var th := s.threads[t];
    assert ThreadInv(w, s, t);
    if th.mode.Store? {
      assert FrameInv(w, s, t, |th.frames| - 1);
    }
  }

  /** A thread that looks for a provider finds an error, a build, a value or nothing. */
  lemma LookingOwnMode(w: Wiring, s: State, t: nat, c: Choice)
    requires Inv(w, s) && Enabled(s, t) && (s.threads[t].mode.Want? || s.threads[t].mode.Wait?)
    ensures ModeInv(w, Step(w, s, t, c), Step(w, s, t, c).threads[t])
  {
    assert ThreadInv(w, s, t);
    if s.threads[t].mode.Want? && s.threads[t].mode.key in s.slots {
      assert SlotInv(w, s, s.threads[t].mode.key);
    }
    match s.threads[t].mode
    case Want(_) =>
    case Wait(_, _) =>
  }

  lemma BuildingOwnMode(w: Wiring, s: State, t: nat, c: Choice)
    requires Inv(w, s) && Enabled(s, t) && (s.threads[t].mode.Run? || s.threads[t].mode.Store?)
    ensures ModeInv(w, Step(w, s, t, c), Step(w, s, t, c).threads[t])
  {
    var th := s.threads[t];
    assert ThreadInv(w, s, t) && FrameInv(w, s, t, |th.frames| - 1);
    match s.threads[t].mode
    case Run =>
    case Store(_) =>
  }

  lemma StepOwnMode(w: Wiring, s: State, t: nat, c: Choice)
    requires Inv(w, s) && Enabled(s, t)
    ensures ModeInv(w, Step(w, s, t, c), Step(w, s, t, c).threads[t])
  {
    var th := s.threads[t];
    assert ThreadInv(w, s, t);
    match s.threads[t].mode
    case Want(_) => LookingOwnMode(w, s, t, c);
    case Wait(_, _) => LookingOwnMode(w, s, t, c);
    case Run => BuildingOwnMode(w, s, t, c);
    case Store(_) => BuildingOwnMode(w, s, t, c);
    case Close(_) =>
      if |th.frames| > 1 {
        assert FrameInv(w, s, t, |th.frames| - 2);
      }
    case Deliver(_, _) =>
  }

  lemma StepMovesOne(w: Wiring, s: State, t: nat, c: Choice)
    requires Enabled(s, t)
    ensures Step(w, s, t, c).threads == s.threads[t := Step(w, s, t, c).threads[t]]
  {
  }

  /** A step begins no build under an old entry, and closes no entry but its own. */
  lemma StepBuildsAreNew(w: Wiring, s: State, t: nat, c: Choice, k: RefKey, e: nat)
    requires Enabled(s, t) && e < |s.entries|
    ensures e < |Step(w, s, t, c).entries| && Step(w, s, t, c).entries[e].key == s.entries[e].key
    ensures k in Step(w, s, t, c).slots && Step(w, s, t, c).slots[k] == Building(e) ==>
              k in s.slots && s.slots[k] == Building(e)
  {
  }

  lemma StepOtherMode(w: Wiring, s: State, t: nat, c: Choice, u: nat)
    requires Inv(w, s) && Enabled(s, t) && u < |s.threads| && u != t
    ensures ModeInv(w, Step(w, s, t, c), s.threads[u])
  {
    var other := s.threads[u];
    assert ThreadInv(w, s, u);
    match other.mode
    case Want(_) =>
    case Wait(k, e) => StepBuildsAreNew(w, s, t, c, k, e);
    case Run =>
    case Store(_) =>
    case Close(res) =>
      assert FrameInv(w, s, u, |other.frames| - 1);
      StepBuildsAreNew(w, s, t, c, Top(other).key, Top(other).entry);
      StepKeepsValue(w, s, t, c, Top(other).key, res);
    case Deliver(k, res) => StepKeepsValue(w, s, t, c, k, res);
    case Done(k, res) => StepKeepsValue(w, s, t, c, k, res);
  }

  lemma StepKeepsValue(w: Wiring, s: State, t: nat, c: Choice, k: RefKey, res: Res)
    requires Inv(w, s) && Enabled(s, t) && HasValue(s, k, res)
    ensures HasValue(Step(w, s, t, c), k, res)
  {
    if res.Val? {
      StepKeepsReady(w, s, t, c, k);
    }
  }

  /** A step leaves alone the slot and the entry of every build it is not working on. */
  lemma StepKeepsBuild(w: Wiring, s: State, t: nat, c: Choice, u: nat, j: nat)
    requires Inv(w, s) && Enabled(s, t) && u < |s.threads| && j < |s.threads[u].frames|
    requires u != t || j + 1 < |s.threads[t].frames|
    ensures var s', fr := Step(w, s, t, c), s.threads[u].frames[j];
            && fr.entry < |s.entries| && |s.entries| <= |s'.entries| && s'.entries[fr.entry] == s.entries[fr.entry]
            && (fr.key in s.slots && s.slots[fr.key] == Building(fr.entry) ==>
                  fr.key in s'.slots && s'.slots[fr.key] == Building(fr.entry))
  {
    assert FrameInv(w, s, u, j);
    if s.threads[t].frames != [] {
      assert FrameInv(w, s, t, |s.threads[t].frames| - 1);
    }
  }

  lemma StepKeepsArgs(w: Wiring, s: State, t: nat, c: Choice, key: RefKey, args: seq<Option<int>>)
    requires Inv(w, s) && Enabled(s, t) && key in w.graph && |args| <= |w.graph[key].deps|
    requires forall i :: 0 <= i < |args| ==> IsArg(w, s, w.graph[key].deps[i], args[i])
    ensures forall i :: 0 <= i < |args| ==> IsArg(w, Step(w, s, t, c), w.graph[key].deps[i], args[i])
  {
    var deps := w.graph[key].deps;
    forall i | 0 <= i < |args| ensures IsArg(w, Step(w, s, t, c), deps[i], args[i]) {
      assert IsArg(w, s, deps[i], args[i]);
      if deps[i] in w.graph {
        StepKeepsReady(w, s, t, c, deps[i]);
      }
    }
  }

  /** What a frame that the step does not move relies on. */
  lemma StepOtherFrame(w: Wiring, s: State, t: nat, c: Choice, u: nat, j: nat)
    requires Inv(w, s) && Enabled(s, t) && u < |s.threads| && j < |s.threads[u].frames| && u != t
    ensures FrameInv(w, Step(w, s, t, c), u, j)
  {
    assert FrameInv(w, s, u, j);
    StepMovesOne(w, s, t, c);
    StepKeepsBuild(w, s, t, c, u, j);
    StepKeepsArgs(w, s, t, c, s.threads[u].frames[j].key, s.threads[u].frames[j].args);
  }

  /** A step works on the top frame only: it pushes one, pops it or changes its index. */
  lemma StepKeepsLower(w: Wiring, s: State, t: nat, c: Choice, j: nat)
    requires Enabled(s, t) && j + 1 < |s.threads[t].frames|
    ensures var before, after := s.threads[t].frames, Step(w, s, t, c).threads[t].frames;
            && j < |after| && after[j] == before[j]
            && (j + 1 < |after| ==> after[j + 1].key == before[j + 1].key)
  {
  }

  lemma StepLowerFrame(w: Wiring, s: State, t: nat, c: Choice, j: nat)
    requires Inv(w, s) && Enabled(s, t) && j + 1 < |s.threads[t].frames|
    ensures FrameInv(w, Step(w, s, t, c), t, j)
  {
    assert FrameInv(w, s, t, j);
    StepKeepsBuild(w, s, t, c, t, j);
    StepKeepsArgs(w, s, t, c, s.threads[t].frames[j].key, s.threads[t].frames[j].args);
    StepKeepsLower(w, s, t, c, j);
  }

  /** A thread that looks, waits or stores leaves its top frame alone, or puts a new one on it. */
  lemma IdleTopFrame(w: Wiring, s: State, t: nat, c: Choice)
    requires Inv(w, s) && Enabled(s, t) && Step(w, s, t, c).threads[t].frames != []
    requires s.threads[t].mode.Want? || s.threads[t].mode.Wait? || s.threads[t].mode.Store?
    ensures FrameInv(w, Step(w, s, t, c), t, |Step(w, s, t, c).threads[t].frames| - 1)
  {
    var th := s.threads[t];
    assert ThreadInv(w, s, t);
    if th.frames != [] {
      assert FrameInv(w, s, t, |th.frames| - 1);
      StepKeepsArgs(w, s, t, c, Top(th).key, Top(th).args);
    }
    match s.threads[t].mode
    case Want(_) =>
    case Wait(_, _) =>
    case Store(_) =>
  }

  /** One that builds, or is given a value, may have one more argument. */
  lemma BusyTopFrame(w: Wiring, s: State, t: nat, c: Choice)
    requires Inv(w, s) && Enabled(s, t) && Step(w, s, t, c).threads[t].frames != []
    requires s.threads[t].mode.Run? || s.threads[t].mode.Deliver?
    ensures FrameInv(w, Step(w, s, t, c), t, |Step(w, s, t, c).threads[t].frames| - 1)
  {
    var th := s.threads[t];
    assert ThreadInv(w, s, t) && FrameInv(w, s, t, |th.frames| - 1);
    StepKeepsArgs(w, s, t, c, Top(th).key, Top(th).args);
    match s.threads[t].mode
    case Run =>
    case Deliver(k, _) =>
      if k in s.slots {
        assert SlotInv(w, s, k);
      }
  }

  lemma StepTopFrame(w: Wiring, s: State, t: nat, c: Choice)
    requires Inv(w, s) && Enabled(s, t) && Step(w, s, t, c).threads[t].frames != []
    requires !s.threads[t].mode.Close?
    ensures FrameInv(w, Step(w, s, t, c), t, |Step(w, s, t, c).threads[t].frames| - 1)
  {
    if s.threads[t].mode.Run? || s.threads[t].mode.Deliver? {
      BusyTopFrame(w, s, t, c);
    } else {
      IdleTopFrame(w, s, t, c);
    }
  }

  /** A build begun by the step leaves the frame that asked for it where it was. */
  lemma StepPushedFrame(w: Wiring, s: State, t: nat, c: Choice)
    requires Inv(w, s) && Enabled(s, t) && s.threads[t].frames != []
    requires |Step(w, s, t, c).threads[t].frames| > |s.threads[t].frames|
    ensures FrameInv(w, Step(w, s, t, c), t, |s.threads[t].frames| - 1)
  {
    var s' := Step(w, s, t, c);
    var th := s.threads[t];
    var fr := Top(th);
    assert ThreadInv(w, s, t) && FrameInv(w, s, t, |th.frames| - 1);
    StepKeepsArgs(w, s, t, c, fr.key, fr.args);
  }

  lemma StepOwnFrame(w: Wiring, s: State, t: nat, c: Choice, j: nat)
    requires Inv(w, s) && Enabled(s, t) && j < |Step(w, s, t, c).threads[t].frames|
    ensures FrameInv(w, Step(w, s, t, c), t, j)
  {
    var before, after := |s.threads[t].frames|, |Step(w, s, t, c).threads[t].frames|;
    assert after <= before + 1 && (s.threads[t].mode.Close? ==> after == before - 1);
    if j + 1 < before {
      StepLowerFrame(w, s, t, c, j);
    } else if j + 1 == before < after {
      StepPushedFrame(w, s, t, c);
    } else {
      StepTopFrame(w, s, t, c);
    }
  }

  /** Builds stay in their frames; only Close takes one off. */
  lemma StepKeepsFrameEntries(w: Wiring, s: State, t: nat, c: Choice, j: nat)
    requires Enabled(s, t) && j < |s.threads[t].frames|
    ensures var after := Step(w, s, t, c).threads[t].frames;
            if j < |after| then after[j].entry == s.threads[t].frames[j].entry
            else s.threads[t].mode.Close? && j == |s.threads[t].frames| - 1
  {
  }

  lemma StepOldEntry(w: Wiring, s: State, t: nat, c: Choice, e: nat)
    requires Inv(w, s) && Enabled(s, t) && e < |s.entries|
    ensures EntryInv(w, Step(w, s, t, c), e)
  {
    var en := s.entries[e];
    assert EntryInv(w, s, e);
    StepMovesOne(w, s, t, c);
    if !en.closed && en.owner == t {
      StepKeepsFrameEntries(w, s, t, c, en.level);
    }
  }

  lemma StepEntry(w: Wiring, s: State, t: nat, c: Choice, e: nat)
    requires Inv(w, s) && Enabled(s, t) && e < |Step(w, s, t, c).entries|
    ensures EntryInv(w, Step(w, s, t, c), e)
  {
    if e < |s.entries| {
      StepOldEntry(w, s, t, c, e);
    } else {
      assert s.threads[t].mode.Want?;
    }
  }

  lemma StepSlot(w: Wiring, s: State, t: nat, c: Choice, k: RefKey)
    requires Inv(w, s) && Enabled(s, t) && k in Step(w, s, t, c).slots
    ensures SlotInv(w, Step(w, s, t, c), k)
  {
    var s' := Step(w, s, t, c);
    var th := s.threads[t];
    assert ThreadInv(w, s, t);
    if th.frames != [] {
      assert FrameInv(w, s, t, |th.frames| - 1);
    }
    if k in s.slots {
      assert SlotInv(w, s, k);
    }
    forall d | d in w.graph && IsReady(s, d) ensures IsReady(s', d) {
      StepKeepsReady(w, s, t, c, d);
    }
    match s.threads[t].mode
    case Want(_) =>
    case Wait(_, _) =>
    case Run =>
    case Store(_) =>
    case Close(_) =>
    case Deliver(_, _) =>
  }

  lemma StepInv(w: Wiring, s: State, t: nat, c: Choice)
    requires Inv(w, s) && Enabled(s, t)
    ensures Inv(w, Step(w, s, t, c))
  {
    var s' := Step(w, s, t, c);
    StepMovesOne(w, s, t, c);
    forall u | 0 <= u < |s'.threads| ensures ThreadInv(w, s', u) {
      if u == t {
        StepOwnMode(w, s, t, c);
      } else {
        StepOtherMode(w, s, t, c, u);
      }
    }
    forall u, j | 0 <= u < |s'.threads| && 0 <= j < |s'.threads[u].frames| ensures FrameInv(w, s', u, j) {
      if u == t {
        StepOwnFrame(w, s, t, c, j);
      } else {
        StepOtherMode(w, s, t, c, u);
        StepOtherFrame(w, s, t, c, u, j);
      }
    }
    forall e | 0 <= e < |s'.entries| ensures EntryInv(w, s', e) {
      StepEntry(w, s, t, c, e);
    }
    forall k | k in s'.slots ensures SlotInv(w, s', k) {
      StepSlot(w, s, t, c, k);
    }
  }

  // -------------------------------------------------------------------- runs

  datatype Event = Event(thread: nat, choice: Choice)

  /** A schedule; a thread that cannot move passes its turn. */
  function RunAll(w: Wiring, s: State, schedule: seq<Event>): State
    decreases |schedule|
  {
    if schedule == [] then s
    else
      var e := schedule[0];
      RunAll(w, if Enabled(s, e.thread) then Step(w, s, e.thread, e.choice) else s, schedule[1..])
  }

  lemma {:induction false} RunInv(w: Wiring, s: State, schedule: seq<Event>)
    requires Inv(w, s)
    ensures Inv(w, RunAll(w, s, schedule))
    decreases |schedule|
  {
    if schedule != [] {
      var e := schedule[0];
      if Enabled(s, e.thread) {
        StepInv(w, s, e.thread, e.choice);
        RunInv(w, Step(w, s, e.thread, e.choice), schedule[1..]);
      } else {
        RunInv(w, s, schedule[1..]);
      }
    }
  }

  /** A resolved entry is never replaced or evicted. */
  lemma {:induction false} ReadyForever(w: Wiring, s: State, schedule: seq<Event>, k: RefKey)
    requires Inv(w, s) && IsReady(s, k)
    ensures k in RunAll(w, s, schedule).slots && RunAll(w, s, schedule).slots[k] == s.slots[k]
    decreases |schedule|
  {
    if schedule != [] {
      var e := schedule[0];
      if Enabled(s, e.thread) {
        StepInv(w, s, e.thread, e.choice);
        StepKeepsReady(w, s, e.thread, e.choice, k);
        ReadyForever(w, Step(w, s, e.thread, e.choice), schedule[1..], k);
      } else {
        ReadyForever(w, s, schedule[1..], k);
      }
    }
  }

  predicate Returned(s: State, t: nat, k: RefKey, v: int) {
    t < |s.threads| && s.threads[t].mode == Done(k, Val(v))
  }

  /**
   * Whoever resolves a key, and whenever: all get one value, the key has no
   * wiring error, and all its wired dependencies were resolved.
   */
  lemma CallersAgree(
    w: Wiring, keys: seq<RefKey>, first: seq<Event>, more: seq<Event>, t: nat, u: nat, k: RefKey, v: int, v': int)
    requires Returned(RunAll(w, Init(keys), first), t, k, v)
    requires Returned(RunAll(w, RunAll(w, Init(keys), first), more), u, k, v')
    ensures v == v' && k in w.graph && k !in w.errs
    ensures forall d :: d in w.graph[k].deps && d in w.graph ==> IsReady(RunAll(w, Init(keys), first), d)
  {
    InitInv(w, keys);
    RunInv(w, Init(keys), first);
    var mid := RunAll(w, Init(keys), first);
    RunInv(w, mid, more);
    assert ThreadInv(w, mid, t) && SlotInv(w, mid, k);
    var end := RunAll(w, mid, more);
    assert ThreadInv(w, end, u);
    ReadyForever(w, mid, more, k);
  }

  /** A thread that finds no entry for a wired key starts a build of its own. */
  lemma MissingIsBuilt(w: Wiring, s: State, u: nat, c: Choice, k: RefKey)
    requires u < |s.threads| && s.threads[u].mode == Want(k)
    requires k in w.graph && k !in w.errs && k !in s.slots
    ensures Enabled(s, u)
    ensures var s' := Step(w, s, u, c);
            && s'.slots == s.slots[k := Building(|s.entries|)]
            && s'.threads[u] == Thread(s.threads[u].frames + [Frame(k, [], |s.entries|)], Run)
  {
  }

  /** A build that failed leaves no entry, and the next thread to want the key builds it. */
  lemma FailedBuildIsRetried(w: Wiring, s: State, t: nat, c: Choice, u: nat, c': Choice)
    requires Inv(w, s) && Enabled(s, t) && s.threads[t].mode.Store? && s.threads[t].mode.res.Fail?
    requires u < |s.threads| && s.threads[u].mode == Want(Top(s.threads[t]).key)
    ensures var s', k := Step(w, s, t, c), Top(s.threads[t]).key;
            && k in s.slots && s'.slots == s.slots - {k} && Enabled(s', u)
            && var s'' := Step(w, s', u, c');
               && s''.slots == s'.slots[k := Building(|s'.entries|)]
               && s''.threads[u] == Thread(s.threads[u].frames + [Frame(k, [], |s'.entries|)], Run)
  {
    assert FrameInv(w, s, t, |s.threads[t].frames| - 1);
    MissingIsBuilt(w, Step(w, s, t, c), u, c', Top(s.threads[t]).key);
  }

  /** A woken waiter never waits for the same build again. */
  lemma WokenWaiterMovesOn(w: Wiring, s: State, t: nat, c: Choice, c': Choice)
    requires Inv(w, s) && Enabled(s, t) && s.threads[t].mode.Wait?
    ensures var once := Step(w, s, t, c);
            Enabled(once, t) && Step(w, once, t, c').threads[t].mode != s.threads[t].mode
  {
    var k := s.threads[t].mode.key;
    if k in s.slots {
      assert SlotInv(w, s, k);
    }
  }

  // ------------------------------------------------- no deadlock, no recursion

  lemma NextFrameIsDependency(w: Wiring, topo: seq<RefKey>, s: State, t: nat, j: nat)
    requires Inv(w, s) && t < |s.threads| && j + 1 < |s.threads[t].frames|
    requires TopologicalOrder(w.graph, w.errs, topo)
    ensures s.threads[t].frames[j].key in topo && s.threads[t].frames[j + 1].key in topo
    ensures IndexOf(topo, s.threads[t].frames[j + 1].key) < IndexOf(topo, s.threads[t].frames[j].key)
  {
    assert FrameInv(w, s, t, j) && FrameInv(w, s, t, j + 1);
    DependencyComesFirst(w.graph, w.errs, topo, s.threads[t].frames[j].key, s.threads[t].frames[j + 1].key);
  }

  /** Down the stack the rank in any order of the wiring falls. */
  lemma {:induction false} FramesDescend(w: Wiring, topo: seq<RefKey>, s: State, t: nat, i: nat, j: nat)
    requires Inv(w, s) && TopologicalOrder(w.graph, w.errs, topo)
    requires t < |s.threads| && i <= j < |s.threads[t].frames|
    ensures s.threads[t].frames[i].key in topo && s.threads[t].frames[j].key in topo
    ensures IndexOf(topo, s.threads[t].frames[j].key) + (j - i) <= IndexOf(topo, s.threads[t].frames[i].key)
    decreases j - i
  {
    if i == j {
      assert FrameInv(w, s, t, i);
    } else {
      NextFrameIsDependency(w, topo, s, t, i);
      FramesDescend(w, topo, s, t, i + 1, j);
    }
  }

  /** All keys on one stack differ. */
  lemma FramesDiffer(w: Wiring, topo: seq<RefKey>, s: State, t: nat)
    requires Inv(w, s) && TopologicalOrder(w.graph, w.errs, topo) && t < |s.threads|
    ensures forall i, j :: 0 <= i < j < |s.threads[t].frames| ==> s.threads[t].frames[i].key != s.threads[t].frames[j].key
  {
    forall i, j | 0 <= i < j < |s.threads[t].frames| ensures s.threads[t].frames[i].key != s.threads[t].frames[j].key {
      FramesDescend(w, topo, s, t, i, j);
    }
  }

  /** resolveProvider never recurses deeper than there are providers without an error. */
  lemma RecursionIsBounded(w: Wiring, topo: seq<RefKey>, s: State, t: nat)
    requires Inv(w, s) && TopologicalOrder(w.graph, w.errs, topo) && t < |s.threads|
    ensures |s.threads[t].frames| <= |topo|
    ensures |s.threads[t].frames| <= |w.graph.Keys - w.errs|
  {
    var frames := s.threads[t].frames;
    if frames != [] {
      FramesDescend(w, topo, s, t, 0, |frames| - 1);
    }
    FramesDiffer(w, topo, s, t);
    var keys := seq(|frames|, j requires 0 <= j < |frames| => frames[j].key);
    forall j | 0 <= j < |keys| ensures keys[j] in w.graph.Keys - w.errs {
      assert FrameInv(w, s, t, j);
    }
    DistinctFit(keys, w.graph.Keys - w.errs);
  }

  predicate Unfinished(s: State, t: nat) {
    t < |s.threads| && !s.threads[t].mode.Done?
  }

  /** A thread that cannot move waits for a key of a build that is still open. */
  lemma BlockedWaits(w: Wiring, s: State, t: nat)
    requires Inv(w, s) && Unfinished(s, t) && !Enabled(s, t)
    ensures s.threads[t].mode.Wait? && s.threads[t].mode.entry < |s.entries|
    ensures var e := s.entries[s.threads[t].mode.entry];
            !e.closed && e.key == s.threads[t].mode.key && e.key in w.graph && e.key !in w.errs
    ensures s.threads[t].frames != [] ==> Pending(w, Top(s.threads[t]), s.threads[t].mode.key)
  {
    var th := s.threads[t];
    assert ThreadInv(w, s, t);
    if th.frames != [] {
      assert FrameInv(w, s, t, |th.frames| - 1);
    }
    if th.mode.Wait? {
      assert EntryInv(w, s, th.mode.entry);
    }
  }

  /** From a waiting thread to the thread that builds what it waits for, and on. */
  lemma {:induction false} FollowOwners(w: Wiring, topo: seq<RefKey>, s: State, t: nat) returns (u: nat)
    requires Inv(w, s) && TopologicalOrder(w.graph, w.errs, topo) && Unfinished(s, t)
    ensures Enabled(s, u)
    decreases if Enabled(s, t) then 0 else 1,
              if !Enabled(s, t) && s.threads[t].mode.Wait? && s.threads[t].mode.key in topo
              then IndexOf(topo, s.threads[t].mode.key) else 0
  {
    if Enabled(s, t) {
      return t;
    }
    BlockedWaits(w, s, t);
    var k, e := s.threads[t].mode.key, s.threads[t].mode.entry;
    assert EntryInv(w, s, e);
    var owner, level := s.entries[e].owner, s.entries[e].level;
    assert FrameInv(w, s, owner, level);
    var frames := s.threads[owner].frames;
    assert ThreadInv(w, s, owner);
    if !Enabled(s, owner) {
      BlockedWaits(w, s, owner);
      FramesDescend(w, topo, s, owner, level, |frames| - 1);
      assert FrameInv(w, s, owner, |frames| - 1);
      DependencyComesFirst(w.graph, w.errs, topo, frames[|frames| - 1].key, s.threads[owner].mode.key);
    }
    u := FollowOwners(w, topo, s, owner);
  }

  /** No resolvers ever wait for each other in a loop. */
  lemma NoDeadlock(w: Wiring, topo: seq<RefKey>, keys: seq<RefKey>, schedule: seq<Event>, t: nat)
    requires TopologicalOrder(w.graph, w.errs, topo)
    requires Unfinished(RunAll(w, Init(keys), schedule), t)
    ensures exists u :: 0 <= u < |keys| && Enabled(RunAll(w, Init(keys), schedule), u)
  {
    var s := RunAll(w, Init(keys), schedule);
    InitInv(w, keys);
    RunInv(w, Init(keys), schedule);
    RunKeepsThreads(w, Init(keys), schedule);
    var u := FollowOwners(w, topo, s, t);
  }

  lemma {:induction false} RunKeepsThreads(w: Wiring, s: State, schedule: seq<Event>)
    ensures |RunAll(w, s, schedule).threads| == |s.threads|
    decreases |schedule|
  {
    if schedule != [] {
      var e := schedule[0];
      if Enabled(s, e.thread) {
        StepMovesOne(w, s, e.thread, e.choice);
        RunKeepsThreads(w, Step(w, s, e.thread, e.choice), schedule[1..]);
      } else {
        RunKeepsThreads(w, s, schedule[1..]);
      }
    }
  }

  // ------------------------------------------------- what the others rely on

  function ReadyKeys(s: State): set<RefKey> {
    set k | k in s.slots && s.slots[k].Ready?
  }

  /** What Close finds resolved meets the assumptions of its ordering. */
  lemma ResolvedAreClosable(w: Wiring, topo: seq<RefKey>, s: State)
    requires Inv(w, s) && TopologicalOrder(w.graph, w.errs, topo)
    ensures CloseOrder.Resolvable(w.graph, w.errs, topo, ReadyKeys(s))
  {
    forall k | k in ReadyKeys(s) ensures SlotInv(w, s, k) {
    }
  }

  /** While no build is under way, recording a failed eager build as its key's error is safe. */
  lemma RecordingFailureIsSafe(w: Wiring, topo: seq<RefKey>, s: State, k: RefKey)
    requires Inv(w, s) && TopologicalOrder(w.graph, w.errs, topo)
    requires k !in s.slots && (forall t :: 0 <= t < |s.threads| ==> s.threads[t].frames == [])
    ensures TopologicalOrder(w.graph, w.errs + {k}, topo)
    ensures Inv(w.(errs := w.errs + {k}), s)
  {
    var w' := w.(errs := w.errs + {k});
    forall j | 0 <= j < |topo| ensures DepsBefore(w'.graph, w'.errs, topo, j) {
      assert DepsBefore(w.graph, w.errs, topo, j);
    }
    forall x | x in s.slots ensures SlotInv(w', s, x) {
      assert SlotInv(w, s, x);
    }
    forall e | 0 <= e < |s.entries| ensures EntryInv(w', s, e) {
      assert EntryInv(w, s, e);
    }
    forall t | 0 <= t < |s.threads| ensures ThreadInv(w', s, t) {
      assert ThreadInv(w, s, t);
    }
  }
}
