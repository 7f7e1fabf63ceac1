/**
 * Nested transactions over savepoints (orm/tx.go) on top of db.WithTx
 * (core/db/tx.go), and whole-transaction retries (orm/retry.go).
 */
module NestedTx {
  import opened Basics

  // ------------------------------------------------------ savepoint names

  function Digit(d: nat): char
    requires d < 10
  {
    ('0' as int + d) as char
  }

  /** strconv.Itoa on the depths that occur. */
  function Itoa(n: nat): (s: string)
    ensures |s| >= 1 && (|s| == 1 <==> n < 10)
  {
    if n < 10 then [Digit(n)] else Itoa(n / 10) + [Digit(n % 10)]
  }

  function SavepointName(depth: nat): string {
    "sp_" + Itoa(depth)
  }

  lemma {:induction false} ItoaInjective(m: nat, n: nat)
    requires Itoa(m) == Itoa(n)
    ensures m == n
    decreases m
  {
    var s := Itoa(m);
    assert s[|s| - 1] == Digit(m % 10) && s[|s| - 1] == Digit(n % 10);
    assert m % 10 == n % 10;
    if |s| > 1 {
      assert Itoa(m / 10) == s[..|s| - 1] == Itoa(n / 10);
      ItoaInjective(m / 10, n / 10);
    }
  }

  lemma SavepointNamesDiffer(m: nat, n: nat)
    ensures SavepointName(m) == SavepointName(n) <==> m == n
  {
    if SavepointName(m) == SavepointName(n) {
      assert SavepointName(m)[3..] == Itoa(m) && SavepointName(n)[3..] == Itoa(n);
      ItoaInjective(m, n);
    }
  }

  lemma {:induction false} ItoaIsDigits(n: nat)
    ensures forall i :: 0 <= i < |Itoa(n)| ==> IsDigit(Itoa(n)[i])
  {
    if n >= 10 {
      ItoaIsDigits(n / 10);
    }
  }

  /** A letter or underscore, then letters, digits and underscores only. */
  lemma SavepointNameIsValid(depth: nat)
    ensures var s := SavepointName(depth);
            && s != [] && (IsLetter(s[0]) || s[0] == '_')
            && forall i :: 0 <= i < |s| ==> IsLetter(s[i]) || IsDigit(s[i]) || s[i] == '_'
  {
    ItoaIsDigits(depth);
    var s := SavepointName(depth);
    assert forall i :: 3 <= i < |s| ==> s[i] == Itoa(depth)[i - 3];
  }

  // ---------------------------------------------- a transaction in the database

  type State = map<string, int>

  datatype Savepoint = Mark(name: string, saved: State)

  /** The data a transaction sees and its savepoints, oldest first. */
  datatype TxState = TxState(rows: State, stack: seq<Savepoint>)

  /** The youngest savepoint of that name; |stack| when there is none. */
  function Youngest(stack: seq<Savepoint>, name: string): (i: nat)
    ensures i <= |stack|
  {
    if stack == [] then 0
    else if stack[|stack| - 1].name == name then |stack| - 1
    else
      var i := Youngest(stack[..|stack| - 1], name);
      if i == |stack| - 1 then |stack| else i
  }

  /** SAVEPOINT name shadows an older savepoint of the same name. */
  function DoSavepoint(t: TxState, name: string): TxState {
    t.(stack := t.stack + [Mark(name, t.rows)])
  }

  /** ROLLBACK TO name restores the data and keeps the savepoint itself. */
  function DoRollbackTo(t: TxState, name: string): Option<TxState> {
    var i := Youngest(t.stack, name);
    if i == |t.stack| then None else Some(TxState(t.stack[i].saved, t.stack[..i + 1]))
  }

  /** RELEASE name forgets the savepoint and all younger ones. */
  function DoRelease(t: TxState, name: string): Option<TxState> {
    var i := Youngest(t.stack, name);
    if i == |t.stack| then None else Some(t.(stack := t.stack[..i]))
  }

  // ------------------------------------------------------------- programs

  datatype Outcome = Success | Failure | Panic

  /** Which of the three driver calls of a nested transaction fail. */
  datatype Faults = Faults(savepoint: bool, rollback: bool, release: bool)

  /**
   * What a transaction body does. A nested call passes the context of the body
   * `up` levels out (0 is the context the body was given); `swallowed` says
   * which outcomes of the call the body ignores.
   */
  datatype Stmt =
    | Write(key: string, value: int)
    | Fail
    | Crash
    | Nested(body: seq<Stmt>, up: nat, faults: Faults, swallowed: set<Outcome>)

  /** Every nested call is made with the context its body was given. */
  predicate PassesOwnContext(body: seq<Stmt>) {
    forall i :: 0 <= i < |body| ==> body[i].Nested? ==> body[i].up == 0 && PassesOwnContext(body[i].body)
  }

  // ------------------------------------------ what a body does to the database

  /** The depths in the contexts of a body and of those around it, the body's own last. */
  type Depths = s: seq<nat> | s != [] witness [0]

  /** The depth in the context of the body `up` levels out; no further out than the outermost. */
  function DepthAt(depths: Depths, up: nat): nat {
    if up < |depths| then depths[|depths| - 1 - up] else depths[0]
  }

  /** A body and the contexts within its reach: a nested call adds one to the depth of the one it passes. */
  function RunBody(body: seq<Stmt>, depths: Depths, t: TxState): (TxState, Outcome)
    decreases body, 0
  {
    if body == [] then (t, Success)
    else
      match body[0]
      case Write(k, v) => RunBody(body[1..], depths, t.(rows := t.rows[k := v]))
      case Fail => (t, Failure)
      case Crash => (t, Panic)
      case Nested(inner, up, faults, swallowed) =>
        var (t', o) := RunNested(inner, depths, DepthAt(depths, up) + 1, faults, t);
        if o == Success || o in swallowed then RunBody(body[1..], depths, t') else (t', o)
  }

  /** WithNestedTx inside a transaction, called from a body with these contexts; next is its own depth. */
  function RunNested(inner: seq<Stmt>, depths: seq<nat>, next: nat, faults: Faults, t: TxState): (TxState, Outcome)
    decreases inner, 1
  {
    var name := SavepointName(next);
    if faults.savepoint then (t, Failure)
    else Leave(RunBody(inner, depths + [next], DoSavepoint(t, name)), name, faults)
  }

  /** WithNestedTx once its body is back. */
  function Leave(run: (TxState, Outcome), name: string, faults: Faults): (TxState, Outcome) {
    match run.1
    case Panic => run
    case Failure =>
      (if faults.rollback then run.0
       else match DoRollbackTo(run.0, name)
            case None => run.0
            case Some(restored) => restored, Failure)
    case Success =>
      if faults.release then (run.0, Failure)
      else match DoRelease(run.0, name)
           case None => (run.0, Failure)
           case Some(released) => (released, Success)
  }

  // -------------------------------------------------------- what is meant

  /**
   * The functional meaning: no savepoints, only data. A nested call whose body
   * fails leaves the data of its entry, one that succeeds keeps its writes, one
   * that panics undoes nothing itself. A failing driver call is reported and
   * undoes nothing either.
   */
  function MeanBody(body: seq<Stmt>, rows: State): (State, Outcome)
    decreases body, 0
  {
    if body == [] then (rows, Success)
    else
      match body[0]
      case Write(k, v) => MeanBody(body[1..], rows[k := v])
      case Fail => (rows, Failure)
      case Crash => (rows, Panic)
      case Nested(inner, _, faults, swallowed) =>
        var (rows', o) := MeanNested(inner, faults, rows);
        if o == Success || o in swallowed then MeanBody(body[1..], rows') else (rows', o)
  }

  function MeanNested(inner: seq<Stmt>, faults: Faults, rows: State): (State, Outcome)
    decreases inner, 1
  {
    if faults.savepoint then (rows, Failure)
    else MeanLeave(rows, MeanBody(inner, rows), faults)
  }

  function MeanLeave(entry: State, body: (State, Outcome), faults: Faults): (State, Outcome) {
    match body.1
    case Panic => body
    case Failure => (if faults.rollback then body.0 else entry, Failure)
    case Success => (body.0, if faults.release then Failure else Success)
  }

  // -------------------------------------------------------------- refinement

  /** No savepoint from position base on carries the name of depth or of an outer one. */
  ghost predicate DeeperFrom(stack: seq<Savepoint>, base: nat, depth: nat) {
    forall i, d: nat :: base <= i < |stack| && d <= depth ==> stack[i].name != SavepointName(d)
  }

  lemma {:induction false} YoungestAbove(stack: seq<Savepoint>, base: nat, depth: nat)
    requires base < |stack| && stack[base].name == SavepointName(depth) && DeeperFrom(stack, base + 1, depth)
    ensures Youngest(stack, SavepointName(depth)) == base
  {
    if base < |stack| - 1 {
      assert stack[|stack| - 1].name != SavepointName(depth);
      YoungestAbove(stack[..|stack| - 1], base, depth);
    }
  }

  /**
   * The run left the savepoints it found alone, every savepoint it left behind
   * belongs to a deeper level, and data and outcome are as meant.
   */
  ghost predicate Refines(before: TxState, depth: nat, run: (TxState, Outcome), mean: (State, Outcome)) {
    && run.0.rows == mean.0 && run.1 == mean.1
    && before.stack <= run.0.stack
    && DeeperFrom(run.0.stack, |before.stack|, depth)
  }

  lemma RefinesThen(
    t: TxState, depth: nat, first: (TxState, Outcome), m1: (State, Outcome),
    second: (TxState, Outcome), m2: (State, Outcome))
    requires Refines(t, depth, first, m1) && Refines(first.0, depth, second, m2)
    ensures Refines(t, depth, second, m2)
  {
    forall i, d: nat | |t.stack| <= i < |second.0.stack| && d <= depth
      ensures second.0.stack[i].name != SavepointName(d)
    {
      if i < |first.0.stack| {
        assert second.0.stack[i] == first.0.stack[i];
      }
    }
  }

  lemma {:induction false} BodyRefines(body: seq<Stmt>, depths: Depths, t: TxState)
    requires PassesOwnContext(body)
    ensures Refines(t, DepthAt(depths, 0), RunBody(body, depths, t), MeanBody(body, t.rows))
    decreases body, 0
  {
    if body != [] {
      var rest, depth := body[1..], DepthAt(depths, 0);
      assert PassesOwnContext(rest) by {
        assert forall i :: 0 <= i < |rest| ==> rest[i] == body[i + 1];
      }
      match body[0]
      case Write(k, v) => BodyRefines(rest, depths, t.(rows := t.rows[k := v]));
      case Fail =>
      case Crash =>
      case Nested(inner, up, faults, swallowed) =>
        assert body[0].Nested?;
        NestedRefines(inner, depths, depth, faults, t);
        var step, mean := RunNested(inner, depths, depth + 1, faults, t), MeanNested(inner, faults, t.rows);
        if step.1 == Success || step.1 in swallowed {
          BodyRefines(rest, depths, step.0);
          RefinesThen(t, depth, step, mean, RunBody(rest, depths, step.0), MeanBody(rest, mean.0));
        }
    }
  }

  /** Back at the level of the caller the own savepoint is found and its level's name is gone. */
  lemma OwnSavepointFound(before: TxState, after: TxState, depth: nat)
    requires DoSavepoint(before, SavepointName(depth + 1)).stack <= after.stack
    requires DeeperFrom(after.stack, |before.stack| + 1, depth + 1)
    ensures Youngest(after.stack, SavepointName(depth + 1)) == |before.stack| < |after.stack|
    ensures after.stack[|before.stack|].saved == before.rows
    ensures before.stack <= after.stack
    ensures DeeperFrom(after.stack, |before.stack|, depth)
  {
    var base := |before.stack|;
    var entered := DoSavepoint(before, SavepointName(depth + 1));
    assert entered.stack[base] == after.stack[base];
    YoungestAbove(after.stack, base, depth + 1);
    forall i, d: nat | base <= i < |after.stack| && d <= depth ensures after.stack[i].name != SavepointName(d) {
      SavepointNamesDiffer(depth + 1, d);
    }
  }

  lemma LeaveRefines(t: TxState, depth: nat, run: (TxState, Outcome), mean: (State, Outcome), faults: Faults)
    requires Refines(DoSavepoint(t, SavepointName(depth + 1)), depth + 1, run, mean)
    ensures Refines(t, depth, Leave(run, SavepointName(depth + 1), faults), MeanLeave(t.rows, mean, faults))
  {
    OwnSavepointFound(t, run.0, depth);
    assert run.0.stack[..|t.stack|] == t.stack;
  }

  lemma {:induction false} NestedRefines(inner: seq<Stmt>, depths: seq<nat>, depth: nat, faults: Faults, t: TxState)
    requires PassesOwnContext(inner)
    ensures Refines(t, depth, RunNested(inner, depths, depth + 1, faults, t), MeanNested(inner, faults, t.rows))
    decreases inner, 1
  {
    if !faults.savepoint {
      var entered := DoSavepoint(t, SavepointName(depth + 1));
      BodyRefines(inner, depths + [depth + 1], entered);
      LeaveRefines(t, depth, RunBody(inner, depths + [depth + 1], entered), MeanBody(inner, t.rows), faults);
    }
  }

  /** db.WithTx: begin, run, and commit, or roll back on error and on panic. */
  function RunTx(body: seq<Stmt>, committed: State): (State, Outcome) {
    var (t, o) := RunBody(body, [0], TxState(committed, []));
    if o == Success then (t.rows, Success) else (committed, o)
  }

  /**
   * For every program, in every state: the outermost call commits exactly the
   * meant data on success and nothing otherwise.
   */
  lemma TxRefines(body: seq<Stmt>, committed: State)
    requires PassesOwnContext(body)
    ensures RunTx(body, committed)
            == var (rows, o) := MeanBody(body, committed); if o == Success then (rows, Success) else (committed, o)
  {
    BodyRefines(body, [0], TxState(committed, []));
  }

  /**
   * A nested call that reports an error has restored its entry data exactly
   * when the failure was not the RELEASE, and the ROLLBACK TO of a failed body
   * went through, or else the body changed nothing.
   */
  lemma FailedCallRestores(inner: seq<Stmt>, depths: seq<nat>, depth: nat, faults: Faults, t: TxState)
    requires PassesOwnContext(inner)
    requires RunNested(inner, depths, depth + 1, faults, t).1 == Failure
    ensures RunNested(inner, depths, depth + 1, faults, t).0.rows == t.rows
            <==> (|| faults.savepoint
                  || (MeanBody(inner, t.rows).1 == Failure && !faults.rollback)
                  || MeanBody(inner, t.rows).0 == t.rows)
  {
    NestedRefines(inner, depths, depth, faults, t);
  }

  const NO_FAULTS := Faults(false, false, false)

  /** ROLLBACK TO finds the savepoint at base and brings its data back. */
  predicate RollbackFinds(t: TxState, depth: nat, saved: State) {
    var r := DoRollbackTo(t, SavepointName(depth));
    r.Some? && r.value.rows == saved
  }

  /**
   * A nested call given the context of an outer body takes the name of a
   * savepoint that is in use, the one at base. The rollback to that name still
   * restores what it should exactly when the call left no savepoint of its own
   * behind (it was refused or succeeded), or nothing had changed since.
   */
  lemma RollbackAfterStaleCall(inner: seq<Stmt>, depths: seq<nat>, depth: nat, faults: Faults, t: TxState, base: nat)
    requires PassesOwnContext(inner)
    requires base < |t.stack| && t.stack[base].name == SavepointName(depth + 1)
    requires DeeperFrom(t.stack, base + 1, depth + 1)
    ensures RollbackFinds(RunNested(inner, depths, depth + 1, faults, t).0, depth + 1, t.stack[base].saved)
            <==> (|| faults.savepoint
                  || MeanNested(inner, faults, t.rows).1 == Success
                  || t.rows == t.stack[base].saved)
  {
    YoungestAbove(t.stack, base, depth + 1);
    if !faults.savepoint {
      var entered := DoSavepoint(t, SavepointName(depth + 1));
      BodyRefines(inner, depths + [depth + 1], entered);
      var run := RunBody(inner, depths + [depth + 1], entered);
      OwnSavepointFound(t, run.0, depth);
      assert run.0.stack[..|t.stack|] == t.stack;
      if run.1 == Failure && !faults.rollback {
        YoungestKept(run.0.stack, |t.stack|, SavepointName(depth + 1));
      }
    }
  }

  /** The savepoint that a rollback went to is still the youngest of its name. */
  lemma YoungestKept(stack: seq<Savepoint>, i: nat, name: string)
    requires Youngest(stack, name) == i < |stack|
    ensures Youngest(stack[..i + 1], name) == i && stack[..i + 1][i] == stack[i]
  {
    YoungestNamed(stack, name);
  }

  lemma {:induction false} YoungestNamed(stack: seq<Savepoint>, name: string)
    ensures Youngest(stack, name) < |stack| ==> stack[Youngest(stack, name)].name == name
  {
    if stack != [] {
      YoungestNamed(stack[..|stack| - 1], name);
    }
  }

  /**
   * The naming is what makes this work: a nested call given the context of an
   * outer body reuses that body's savepoint name, the rolled-back savepoint
   * stays on the stack, and the outer rollback then finds it instead of its own.
   */
  lemma StaleContextBreaksRollback()
    ensures var innermost := Nested([Fail], 1, NO_FAULTS, {Failure});
            var outer := [Write("a", 1), innermost, Fail];
            var program := [Nested(outer, 0, NO_FAULTS, {Failure})];
            && MeanBody(program, map[]) == (map[], Success)
            && RunTx(program, map[]) == (map["a" := 1], Success)
  {
    var innermost := Nested([Fail], 1, NO_FAULTS, {Failure});
    var outer := [Write("a", 1), innermost, Fail];
    var name := SavepointName(1);
    var t1 := TxState(map[], [Mark(name, map[])]);
    var t2 := TxState(map["a" := 1], [Mark(name, map[])]);
    var t3 := TxState(map["a" := 1], [Mark(name, map[]), Mark(name, map["a" := 1])]);
    assert outer[1..] == [innermost, Fail] && outer[1..][1..] == [Fail];
    assert DoSavepoint(t2, name) == t3;
    assert t3.stack[..2] == t3.stack;
    assert DoRollbackTo(t3, name) == Some(t3);
    var one: Depths := [0] + [1];
    assert DepthAt(one, 1) == 0;
    assert RunBody([Fail], one + [1], t3) == (t3, Failure);
    assert RunNested([Fail], one, 1, NO_FAULTS, t2) == (t3, Failure);
    assert RunBody([innermost, Fail], one, t2) == (t3, Failure) by {
      assert [innermost, Fail][1..] == [Fail];
    }
    assert RunBody(outer, one, t1) == (t3, Failure);
    assert RunNested(outer, [0], 1, NO_FAULTS, TxState(map[], [])) == (t3, Failure) by {
      assert DoSavepoint(TxState(map[], []), name) == t1;
    }
    assert MeanNested([Fail], NO_FAULTS, map["a" := 1]) == (map["a" := 1], Failure);
    assert MeanBody([innermost, Fail], map["a" := 1]) == (map["a" := 1], Failure) by {
      assert [innermost, Fail][1..] == [Fail];
    }
    assert MeanBody(outer, map[]) == (map["a" := 1], Failure);
    var program := [Nested(outer, 0, NO_FAULTS, {Failure})];
    assert program[1..] == [];
    assert RunBody(program, [0], TxState(map[], [])) == (t3, Success);
    assert MeanNested(outer, NO_FAULTS, map[]) == (map[], Failure);
    assert MeanBody(program, map[]) == (map[], Success);
  }

  // -------------------------------------------------- the transaction object

  /** db.Tx: the three savepoint calls update one transaction in place. */
  class Tx {
    var rows: State
    var stack: seq<Savepoint>

    constructor (rows: State)
      ensures this.rows == rows && stack == []
    {
      this.rows := rows;
      stack := [];
    }

    ghost function View(): TxState
      reads this
    {
      TxState(rows, stack)
    }

    method Savepoint(name: string, fault: bool) returns (ok: bool)
      modifies this
      ensures ok == !fault
      ensures View() == if ok then DoSavepoint(old(View()), name) else old(View())
    {
      ok := !fault;
      if ok {
        stack := stack + [Mark(name, rows)];
      }
    }

    /** The position of the youngest savepoint of that name, searched from the top. */
    method Find(name: string) returns (i: nat)
      ensures i == Youngest(stack, name)
    {
      i := |stack|;
      while i > 0
        invariant i <= |stack|
        invariant forall j :: i <= j < |stack| ==> stack[j].name != name
      {
        if stack[i - 1].name == name {
          YoungestIs(stack, name, i - 1);
          return i - 1;
        }
        i := i - 1;
      }
      YoungestIs(stack, name, |stack|);
      i := |stack|;
    }

    method RollbackTo(name: string, fault: bool) returns (ok: bool)
      modifies this
      ensures ok == (!fault && DoRollbackTo(old(View()), name).Some?)
      ensures View() == if ok then DoRollbackTo(old(View()), name).value else old(View())
    {
      var i := Find(name);
      ok := !fault && i < |stack|;
      if ok {
        rows := stack[i].saved;
        stack := stack[..i + 1];
      }
    }

    method Release(name: string, fault: bool) returns (ok: bool)
      modifies this
      ensures ok == (!fault && DoRelease(old(View()), name).Some?)
      ensures View() == if ok then DoRelease(old(View()), name).value else old(View())
    {
      var i := Find(name);
      ok := !fault && i < |stack|;
      if ok {
        stack := stack[..i];
      }
    }

    method Set(key: string, value: int)
      modifies this
      ensures View() == old(View()).(rows := old(rows)[key := value])
    {
      rows := rows[key := value];
    }
  }

  lemma {:induction false} YoungestIs(stack: seq<Savepoint>, name: string, i: nat)
    requires i <= |stack| && (i < |stack| ==> stack[i].name == name)
    requires forall j :: i < j < |stack| ==> stack[j].name != name
    requires i == |stack| ==> forall j :: 0 <= j < |stack| ==> stack[j].name != name
    ensures Youngest(stack, name) == i
  {
    if stack != [] && i != |stack| - 1 {
      YoungestIs(stack[..|stack| - 1], name, if i == |stack| then |stack| - 1 else i);
    }
  }

  /** One body run against the transaction object; fn of WithNestedTx. */
  method RunBodyIn(tx: Tx, body: seq<Stmt>, depths: Depths) returns (o: Outcome)
    modifies tx
    ensures (tx.View(), o) == RunBody(body, depths, old(tx.View()))
    decreases body, 0
  {
    if body == [] {
      return Success;
    }
    match body[0]
    case Write(k, v) =>
      tx.Set(k, v);
      o := RunBodyIn(tx, body[1..], depths);
    case Fail => o := Failure;
    case Crash => o := Panic;
    case Nested(inner, up, faults, swallowed) =>
      o := WithNestedTx(tx, inner, depths, DepthAt(depths, up), faults);
      if o == Success || o in swallowed {
        o := RunBodyIn(tx, body[1..], depths);
      }
  }

  /** WithNestedTx when the context carries tx and depth; depths are those of the bodies around the call. */
  method WithNestedTx(tx: Tx, inner: seq<Stmt>, depths: seq<nat>, depth: nat, faults: Faults) returns (o: Outcome)
    modifies tx
    ensures (tx.View(), o) == RunNested(inner, depths, depth + 1, faults, old(tx.View()))
    ensures PassesOwnContext(inner) ==> (tx.rows, o) == MeanNested(inner, faults, old(tx.rows))
    decreases inner, 1
  {
    if PassesOwnContext(inner) {
      NestedRefines(inner, depths, depth, faults, tx.View());
    }
    var next := depth + 1;
    var name := SavepointName(next);
    var ok := tx.Savepoint(name, faults.savepoint);
    if !ok {
      return Failure;
    }
    o := RunBodyIn(tx, inner, depths + [next]);
    if o == Failure {
      var _ := tx.RollbackTo(name, faults.rollback);
      return Failure;
    }
    if o == Panic {
      return;
    }
    ok := tx.Release(name, faults.release);
    o := if ok then Success else Failure;
  }

  // ---------------------------------------------------------------- RetryTx

  /** One attempt of fn: what it does, whether its error is retryable, and the driver. */
  datatype Attempt = Attempt(body: seq<Stmt>, retryable: bool, faults: Faults)

  datatype RetryOutcome = Done | Failed(attempt: nat) | Exhausted(attempts: nat) | Cancelled(attempt: nat) | Panicked

  /** runTxAttempt: a savepoint inside a transaction, else a transaction of its own. */
  function MeanAttempt(a: Attempt, nested: bool, rows: State): (State, Outcome) {
    if nested then MeanNested(a.body, a.faults, rows)
    else
      var (after, o) := MeanBody(a.body, rows);
      if o == Success then (after, o) else (rows, o)
  }

  /** One attempt is a whole transaction of its own, or a nested call that takes the name of its depth. */
  lemma AttemptIsTransaction(a: Attempt, depths: seq<nat>, depth: nat, t: TxState)
    requires PassesOwnContext(a.body)
    ensures MeanAttempt(a, false, t.rows) == RunTx(a.body, t.rows)
    ensures var (t', o) := RunNested(a.body, depths, depth + 1, a.faults, t);
            MeanAttempt(a, true, t.rows) == (t'.rows, o)
  {
    TxRefines(a.body, t.rows);
    NestedRefines(a.body, depths, depth, a.faults, t);
  }

  /**
   * Attempts i, i + 1, ... below n, each run on what the one before left.
   * cancelled(i) says the wait after attempt i was interrupted.
   */
  function MeanRetry(
    fn: nat -> Attempt, nested: bool, i: nat, n: nat, cancelled: nat -> bool, rows: State): (State, RetryOutcome)
    requires i <= n
    decreases n - i
  {
    if i == n then (rows, Exhausted(n))
    else
      var (after, o) := MeanAttempt(fn(i), nested, rows);
      if o == Success then (after, Done)
      else if o == Panic then (after, Panicked)
      else if !fn(i).retryable then (after, Failed(i))
      else if i + 1 < n && cancelled(i) then (after, Cancelled(i))
      else MeanRetry(fn, nested, i + 1, n, cancelled, after)
  }

  /** The data that attempt j runs on, when those from i on have failed. */
  function RowsAt(fn: nat -> Attempt, nested: bool, i: nat, j: nat, rows: State): State
    requires i <= j
    decreases j - i
  {
    if i == j then rows else RowsAt(fn, nested, i + 1, j, MeanAttempt(fn(i), nested, rows).0)
  }

  predicate FailsRetryably(fn: nat -> Attempt, nested: bool, i: nat, j: nat, rows: State)
    requires i <= j
  {
    fn(j).retryable && MeanAttempt(fn(j), nested, RowsAt(fn, nested, i, j, rows)).1 == Failure
  }

  /** The attempts before k have all failed retryably, and no wait between them was interrupted. */
  predicate Reached(fn: nat -> Attempt, nested: bool, cancelled: nat -> bool, start: State, k: nat) {
    forall j :: 0 <= j < k ==> FailsRetryably(fn, nested, 0, j, start) && !cancelled(j)
  }

  /**
   * Of n attempts k is the last to run: it leaves rows and decides that o is
   * reported. Data is start before the first.
   */
  predicate EndsAt(
    fn: nat -> Attempt, nested: bool, n: nat, cancelled: nat -> bool, start: State, k: nat, rows: State, o: RetryOutcome)
  {
    && k < n && Reached(fn, nested, cancelled, start, k)
    && var (after, end) := MeanAttempt(fn(k), nested, RowsAt(fn, nested, 0, k, start));
       after == rows &&
       match o
       case Done => end == Success
       case Panicked => end == Panic
       case Failed(i) => i == k && end == Failure && !fn(k).retryable
       case Cancelled(i) => i == k && end == Failure && fn(k).retryable && k + 1 < n && cancelled(k)
       case Exhausted(m) => m == n && k + 1 == n && end == Failure && fn(k).retryable
  }

  lemma {:induction false} RowsAtNext(fn: nat -> Attempt, nested: bool, i: nat, j: nat, rows: State)
    requires i <= j
    ensures RowsAt(fn, nested, i, j + 1, rows) == MeanAttempt(fn(j), nested, RowsAt(fn, nested, i, j, rows)).0
    decreases j - i
  {
    if i < j {
      RowsAtNext(fn, nested, i + 1, j, MeanAttempt(fn(i), nested, rows).0);
    }
  }

  /** From the attempt reached on, the loop comes to the attempt that decides. */
  lemma {:induction false} RetryEnds(fn: nat -> Attempt, nested: bool, i: nat, n: nat, cancelled: nat -> bool, start: State)
    returns (k: nat)
    requires i < n && Reached(fn, nested, cancelled, start, i)
    ensures var (rows, o) := MeanRetry(fn, nested, i, n, cancelled, RowsAt(fn, nested, 0, i, start));
            EndsAt(fn, nested, n, cancelled, start, k, rows, o)
    decreases n - i
  {
    k := i;
    var rows := RowsAt(fn, nested, 0, i, start);
    if MeanAttempt(fn(i), nested, rows).1 == Failure && fn(i).retryable && i + 1 < n && !cancelled(i) {
      assert FailsRetryably(fn, nested, 0, i, start);
      RowsAtNext(fn, nested, 0, i, start);
      k := RetryEnds(fn, nested, i + 1, n, cancelled, start);
    }
  }

  /** An attempt that another comes after is not the last. */
  lemma EndsNotBefore(
    fn: nat -> Attempt, nested: bool, n: nat, cancelled: nat -> bool, start: State,
    k: nat, rows: State, o: RetryOutcome, later: nat)
    requires k < later < n && Reached(fn, nested, cancelled, start, later)
    ensures !EndsAt(fn, nested, n, cancelled, start, k, rows, o)
  {
    assert FailsRetryably(fn, nested, 0, k, start) && !cancelled(k);
  }

  /** There is an attempt that is the last to run, and nothing but what it decides. */
  ghost predicate Decided(
    fn: nat -> Attempt, nested: bool, n: nat, cancelled: nat -> bool, start: State, rows: State, o: RetryOutcome)
  {
    && (exists k :: EndsAt(fn, nested, n, cancelled, start, k, rows, o))
    && (forall k, rows', o' :: EndsAt(fn, nested, n, cancelled, start, k, rows', o') ==> rows' == rows && o' == o)
  }

  lemma RetryIsDecided(fn: nat -> Attempt, nested: bool, n: nat, cancelled: nat -> bool, start: State)
    requires n > 0
    ensures var (rows, o) := MeanRetry(fn, nested, 0, n, cancelled, start);
            Decided(fn, nested, n, cancelled, start, rows, o)
  {
    var (rows, o) := MeanRetry(fn, nested, 0, n, cancelled, start);
    var last := RetryEnds(fn, nested, 0, n, cancelled, start);
    forall k, rows', o' | EndsAt(fn, nested, n, cancelled, start, k, rows', o') ensures rows' == rows && o' == o {
      if k < last {
        EndsNotBefore(fn, nested, n, cancelled, start, k, rows', o', last);
      } else if last < k {
        EndsNotBefore(fn, nested, n, cancelled, start, last, rows, o, k);
      }
    }
  }

  /**
   * The attempt loop; outer is the transaction the context carries, if any.
   * There are as many attempts as asked for, and three when none are. Exactly
   * what the attempt decides that is the last to run is reported.
   */
  method RetryTx(
    outer: Tx?, depths: Depths, maxAttempts: int, fn: nat -> Attempt, cancelled: nat -> bool, committed: State)
    returns (rows: State, o: RetryOutcome)
    requires forall i :: PassesOwnContext(fn(i).body)
    requires outer != null ==> outer.rows == committed
    modifies if outer == null then {} else {outer}
    ensures var n := if maxAttempts <= 0 then 3 else maxAttempts;
            && Decided(fn, outer != null, n, cancelled, committed, rows, o)
            && (rows, o) == MeanRetry(fn, outer != null, 0, n, cancelled, committed)
    ensures outer != null ==> outer.rows == rows
  {
    var attempts := if maxAttempts <= 0 then 3 else maxAttempts;
    RetryIsDecided(fn, outer != null, attempts, cancelled, committed);
    rows := committed;
    for attempt := 0 to attempts
      invariant outer != null ==> outer.rows == rows
      invariant MeanRetry(fn, outer != null, 0, attempts, cancelled, committed)
                == MeanRetry(fn, outer != null, attempt, attempts, cancelled, rows)
    {
      var a := fn(attempt);
      var r: Outcome;
      if outer != null {
        r := WithNestedTx(outer, a.body, depths, DepthAt(depths, 0), a.faults);
        rows := outer.rows;
      } else {
        var tx := new Tx(rows);
        BodyRefines(a.body, [0], TxState(rows, []));
        r := RunBodyIn(tx, a.body, [0]);
        if r == Success {
          rows := tx.rows;
        }
      }
      if r == Success {
        return rows, Done;
      }
      if r == Panic {
        return rows, Panicked;
      }
      if !a.retryable {
        return rows, Failed(attempt);
      }
      if attempt + 1 < attempts && cancelled(attempt) {
        return rows, Cancelled(attempt);
      }
    }
    o := Exhausted(attempts);
  }

  /** Exactly when an attempt that fails leaves the data as it was: the condition of FailedCallRestores. */
  predicate Restores(a: Attempt, nested: bool, rows: State) {
    nested && MeanAttempt(a, nested, rows).1 == Failure ==>
      || a.faults.savepoint
      || (MeanBody(a.body, rows).1 == Failure && !a.faults.rollback)
      || MeanBody(a.body, rows).0 == rows
  }

  lemma FailedAttemptRestores(a: Attempt, nested: bool, rows: State)
    requires MeanAttempt(a, nested, rows).1 == Failure
    ensures MeanAttempt(a, nested, rows).0 == rows <==> Restores(a, nested, rows)
  {
  }

  /** The attempt failed with a retryable error and left nothing behind. */
  ghost predicate Retried(a: Attempt, nested: bool, rows: State) {
    a.retryable && MeanAttempt(a, nested, rows) == (rows, Failure)
  }

  /** Attempt k turned rows into after, and every earlier one was retried. */
  ghost predicate DecidedBy(fn: nat -> Attempt, nested: bool, i: nat, n: nat, rows: State, after: State) {
    exists k :: i <= k < n && MeanAttempt(fn(k), nested, rows) == (after, Success)
      && forall j :: i <= j < k ==> Retried(fn(j), nested, rows)
  }

  /**
   * Either one attempt, run on the initial data, is kept whole after nothing but
   * retried ones, or the data is the initial data (a panic inside an outer
   * transaction is left to that transaction to undo).
   */
  ghost predicate AllOrNothing(
    fn: nat -> Attempt, nested: bool, i: nat, n: nat, cancelled: nat -> bool, rows: State)
    requires i <= n
  {
    var (after, o) := MeanRetry(fn, nested, i, n, cancelled, rows);
    && (o == Done ==> DecidedBy(fn, nested, i, n, rows, after))
    && (o != Done && (o == Panicked ==> !nested) ==> after == rows)
  }

  /** It is enough that each attempt that fails restores the data. */
  lemma {:induction false} RetryIsAllOrNothing(
    fn: nat -> Attempt, nested: bool, i: nat, n: nat, cancelled: nat -> bool, rows: State)
    requires i <= n
    requires forall k :: i <= k < n ==> Restores(fn(k), nested, rows)
    ensures AllOrNothing(fn, nested, i, n, cancelled, rows)
    decreases n - i
  {
    if i < n {
      var (after, o) := MeanAttempt(fn(i), nested, rows);
      assert Restores(fn(i), nested, rows);
      if o == Success {
        assert DecidedBy(fn, nested, i, n, rows, after);
      } else if Retried(fn(i), nested, rows) && !(i + 1 < n && cancelled(i)) {
        RetryIsAllOrNothing(fn, nested, i + 1, n, cancelled, rows);
        var (after', o') := MeanRetry(fn, nested, i + 1, n, cancelled, rows);
        if o' == Done {
          var k :| i + 1 <= k < n && MeanAttempt(fn(k), nested, rows) == (after', Success)
            && forall j :: i + 1 <= j < k ==> Retried(fn(j), nested, rows);
          assert forall j :: i <= j < k ==> Retried(fn(j), nested, rows);
        }
      }
    }
  }

  /** The driver calls that undo an attempt, or settle it, go through. */
  predicate Settles(f: Faults) {
    f.savepoint || (!f.rollback && !f.release)
  }

  /** What fn(k) runs into is faults(k). */
  ghost predicate Meets(fn: nat -> Attempt, faults: nat -> Faults, n: nat) {
    forall k :: 0 <= k < n ==> fn(k).faults == faults(k)
  }

  /** For these driver faults every retry is all or nothing, whatever it runs on whatever data. */
  ghost predicate AlwaysAllOrNothing(faults: nat -> Faults, nested: bool, n: nat) {
    forall fn: nat -> Attempt, cancelled: nat -> bool, rows: State ::
      Meets(fn, faults, n) ==> AllOrNothing(fn, nested, 0, n, cancelled, rows)
  }

  /** An attempt that writes and then fails, by its own doing or by that of the driver. */
  function LeavesWrite(f: Faults): Attempt {
    Attempt(if f.release then [Write("a", 1)] else [Write("a", 1), Fail], true, f)
  }

  lemma WriteIsLeft(f: Faults, rows: State)
    requires !Settles(f)
    ensures MeanAttempt(LeavesWrite(f), true, rows) == (rows["a" := 1], Failure)
  {
    assert [Write("a", 1)][1..] == [] && [Write("a", 1), Fail][1..] == [Fail];
  }

  /** Attempt k leaves its write, all others fail without writing. */
  lemma {:induction false} OneWriteIsLeft(fn: nat -> Attempt, faults: nat -> Faults, k: nat, i: nat, n: nat, rows: State)
    requires i <= n && k < n && !Settles(faults(k))
    requires forall j :: fn(j) == if j == k then LeavesWrite(faults(k)) else Attempt([Fail], true, faults(j))
    ensures MeanRetry(fn, true, i, n, _ => false, rows) == (if i <= k then rows["a" := 1] else rows, Exhausted(n))
    decreases n - i
  {
    if i < n {
      if i == k {
        WriteIsLeft(faults(k), rows);
        OneWriteIsLeft(fn, faults, k, i + 1, n, rows["a" := 1]);
      } else {
        OneWriteIsLeft(fn, faults, k, i + 1, n, rows);
      }
    }
  }

  /**
   * What a retry may rely on the driver for: it is all or nothing for all bodies
   * and data if and only if it is not nested, or each attempt is refused its
   * savepoint or has its ROLLBACK TO and RELEASE go through.
   */
  lemma AllOrNothingExactly(faults: nat -> Faults, nested: bool, n: nat)
    ensures AlwaysAllOrNothing(faults, nested, n) <==> (nested ==> forall k :: 0 <= k < n ==> Settles(faults(k)))
  {
    if nested && exists k :: 0 <= k < n && !Settles(faults(k)) {
      var k :| 0 <= k < n && !Settles(faults(k));
      var fn := (j: nat) => if j == k then LeavesWrite(faults(k)) else Attempt([Fail], true, faults(j));
      OneWriteIsLeft(fn, faults, k, 0, n, map[]);
      assert Meets(fn, faults, n) && !AllOrNothing(fn, nested, 0, n, _ => false, map[]) by {
        assert "a" in map["a" := 1];
      }
    } else {
      forall fn: nat -> Attempt, cancelled: nat -> bool, rows: State | Meets(fn, faults, n)
        ensures AllOrNothing(fn, nested, 0, n, cancelled, rows)
      {
        RetryIsAllOrNothing(fn, nested, 0, n, cancelled, rows);
      }
    }
  }

  /** A nested attempt whose RELEASE fails is retried on top of its own writes. */
  lemma FailedReleaseIsRetriedOnTop()
    ensures var fn := (k: nat) => if k == 0 then Attempt([Write("a", 1)], true, Faults(false, false, true))
                                  else Attempt([Write("b", 2)], true, NO_FAULTS);
            MeanRetry(fn, true, 0, 3, _ => false, map[]) == (map["a" := 1, "b" := 2], Done)
  {
    var fn := (k: nat) => if k == 0 then Attempt([Write("a", 1)], true, Faults(false, false, true))
                          else Attempt([Write("b", 2)], true, NO_FAULTS);
    assert [Write("a", 1)][1..] == [] && [Write("b", 2)][1..] == [];
    assert MeanAttempt(fn(0), true, map[]) == (map["a" := 1], Failure);
    assert MeanAttempt(fn(1), true, map["a" := 1]) == (map["a" := 1, "b" := 2], Success);
    assert MeanRetry(fn, true, 1, 3, _ => false, map["a" := 1]) == (map["a" := 1, "b" := 2], Done);
  }

  /** Every attempt fails retryably on what the ones before it left. */
  predicate AllFail(fn: nat -> Attempt, nested: bool, i: nat, n: nat, rows: State)
    requires i <= n
  {
    forall j :: i <= j < n ==> FailsRetryably(fn, nested, i, j, rows)
  }

  predicate NeverCancelled(cancelled: nat -> bool, i: nat, n: nat) {
    forall j :: i <= j < n - 1 ==> !cancelled(j)
  }

  lemma AllFailStep(fn: nat -> Attempt, nested: bool, i: nat, n: nat, rows: State)
    requires i < n
    ensures AllFail(fn, nested, i, n, rows) <==>
              && fn(i).retryable && MeanAttempt(fn(i), nested, rows).1 == Failure
              && AllFail(fn, nested, i + 1, n, MeanAttempt(fn(i), nested, rows).0)
  {
    var after, next := MeanAttempt(fn(i), nested, rows).0, i + 1;
    if AllFail(fn, nested, i, n, rows) {
      assert FailsRetryably(fn, nested, i, i, rows);
      forall j | next <= j < n ensures FailsRetryably(fn, nested, next, j, after) {
        assert FailsRetryably(fn, nested, i, j, rows);
      }
    } else {
      var j :| i <= j < n && !FailsRetryably(fn, nested, i, j, rows);
      assert i < j ==> !FailsRetryably(fn, nested, next, j, after);
    }
  }

  /**
   * Whatever the driver does, all attempts are used up exactly when each fails
   * retryably on what the ones before it left and no wait is interrupted.
   */
  lemma {:induction false} RetryExhausts(
    fn: nat -> Attempt, nested: bool, i: nat, n: nat, cancelled: nat -> bool, rows: State)
    requires i <= n
    ensures MeanRetry(fn, nested, i, n, cancelled, rows).1.Exhausted? <==>
              AllFail(fn, nested, i, n, rows) && NeverCancelled(cancelled, i, n)
    decreases n - i
  {
    if i < n {
      RetryExhausts(fn, nested, i + 1, n, cancelled, MeanAttempt(fn(i), nested, rows).0);
      AllFailStep(fn, nested, i, n, rows);
      assert NeverCancelled(cancelled, i, n) <==> (i + 1 < n ==> !cancelled(i)) && NeverCancelled(cancelled, i + 1, n);
    }
  }
}
