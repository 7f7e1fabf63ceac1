/**
 * Running a fanned-out predicate (Count in orm/query.go, Stream and
 * streamWheres in orm/stream.go) over a table that does not change between
 * the statements.
 */
module Query {
  import opened Basics
  import opened Predicates
  import opened InChunks

  datatype QueryError = LockingNotSelect | ListTooLarge

  /** The rows one statement returns, in table order; view is what a row shows to predicates. */
  function Select<R>(table: seq<R>, view: R -> Row, where: Node): seq<R> {
    Filter(table, (r: R) => Matches(where, view(r)))
  }

  /** LIMIT and OFFSET, as far as they are set. */
  function Page<R>(rows: seq<R>, limit: int, offset: int): seq<R> {
    var rest := if offset <= 0 then rows else if offset <= |rows| then rows[offset..] else [];
    if 0 < limit < |rest| then rest[..limit] else rest
  }

  /** The rows of several statements, one after the other. */
  function SelectEach<R>(table: seq<R>, view: R -> Row, wheres: seq<Node>): seq<R> {
    if wheres == [] then [] else Select(table, view, wheres[0]) + SelectEach(table, view, wheres[1..])
  }

  lemma {:induction false} SelectEachAppend<R>(table: seq<R>, view: R -> Row, wheres: seq<Node>, last: Node)
    ensures SelectEach(table, view, wheres + [last]) == SelectEach(table, view, wheres) + Select(table, view, last)
  {
    if wheres == [] {
      assert wheres + [last] == [last] && [last][1..] == [];
    } else {
      assert (wheres + [last])[1..] == wheres[1..] + [last];
      SelectEachAppend(table, view, wheres[1..], last);
    }
  }

  /** Values that Go finds equal compare alike with every row of the table. */
  ghost predicate RespectsGo<R>(table: seq<R>, view: R -> Row) {
    forall i :: 0 <= i < |table| ==> RespectsGoEquality(view(table[i]))
  }

  /** No matching row of the table is in two of the planned statements. */
  ghost predicate EachSeenOnce<R>(table: seq<R>, view: R -> Row, where: Node, budget: int)
    requires Plan(where, budget).Ok?
  {
    forall i :: 0 <= i < |table| && Matches(where, view(table[i])) ==> SeenOnce(where, budget, view(table[i]))
  }

  /** SQL tells apart for every row what Go tells apart. */
  ghost predicate ComparesLikeGo<R>(table: seq<R>, view: R -> Row, where: Node) {
    forall i :: 0 <= i < |table| ==> ListsDistinguished(where, view(table[i]))
  }

  /** What is enough for that: nothing to cut, or lists of which a row equals one Go value at most, once. */
  lemma DistinguishedIsSeenOnce<R>(table: seq<R>, view: R -> Row, where: Node, budget: int)
    requires Plan(where, budget).Ok? && RespectsGo(table, view)
    requires FitsOne(where, budget) || ComparesLikeGo(table, view, where)
    ensures EachSeenOnce(table, view, where, budget)
  {
    forall i | 0 <= i < |table| ensures SeenOnce(where, budget, view(table[i])) {
      PlansAreDisjoint(where, budget, view(table[i]));
    }
  }

  lemma SelectByRow<R>(r: R, rest: seq<R>, view: R -> Row, where: Node)
    ensures Select([r] + rest, view, where) == (if Matches(where, view(r)) then [r] else []) + Select(rest, view, where)
  {
    assert ([r] + rest)[0] == r && ([r] + rest)[1..] == rest;
  }

  /** Each row of the table is returned once per plan it matches. */
  lemma {:induction false} SelectEachByRow<R>(r: R, rest: seq<R>, view: R -> Row, wheres: seq<Node>)
    ensures multiset(SelectEach([r] + rest, view, wheres))
            == multiset(SelectEach(rest, view, wheres)) + multiset{}[r := MatchCount(wheres, view(r))]
  {
    if wheres != [] {
      var first, tail := wheres[0], wheres[1..];
      SelectEachByRow(r, rest, view, tail);
      SelectByRow(r, rest, view, first);
      var own := if Matches(first, view(r)) then [r] else [];
      var rows, each, each' := Select(rest, view, first), SelectEach(rest, view, tail), SelectEach([r] + rest, view, tail);
      OneMore(own, r, rows, each, each', MatchCount(tail, view(r)));
      assert SelectEach([r] + rest, view, wheres) == (own + rows) + each';
      assert SelectEach(rest, view, wheres) == rows + each;
    }
  }

  lemma OneMore<R>(own: seq<R>, r: R, rows: seq<R>, tail: seq<R>, tail': seq<R>, n: nat)
    requires own == [] || own == [r]
    requires multiset(tail') == multiset(tail) + multiset{}[r := n]
    ensures multiset((own + rows) + tail') == multiset(rows + tail) + multiset{}[r := |own| + n]
  {
  }

  /** One row more: once or not at all, like the original predicate, or too often. */
  lemma OneRowMore<R>(r: R, rest: seq<R>, view: R -> Row, where: Node, budget: int)
    requires Plan(where, budget).Ok? && RespectsGoEquality(view(r))
    ensures var plans := Plan(where, budget).value;
            var n := MatchCount(plans, view(r));
            && multiset(SelectEach([r] + rest, view, plans)) == multiset(SelectEach(rest, view, plans)) + multiset{}[r := n]
            && multiset(Select([r] + rest, view, where))
               == multiset(Select(rest, view, where)) + multiset{}[r := if Matches(where, view(r)) then 1 else 0]
            && n >= (if Matches(where, view(r)) then 1 else 0)
            && (n == (if Matches(where, view(r)) then 1 else 0) <==> (Matches(where, view(r)) ==> SeenOnce(where, budget, view(r))))
  {
    SelectEachByRow(r, rest, view, Plan(where, budget).value);
    SelectByRow(r, rest, view, where);
    MatchedOnceExactly(where, budget, view(r));
  }

  lemma Sizes<R>(a: seq<R>, b: seq<R>, r: R, n: nat)
    requires multiset(a) == multiset(b) + multiset{}[r := n]
    ensures |a| == |b| + n
  {
    assert |multiset(a)| == |a| && |multiset(b)| == |b|;
  }

  /**
   * The statements of a plan return, together, at least the rows of the original
   * predicate, and no more, each as often as the original does, if and only if
   * no matching row is in two of them.
   */
  lemma {:induction false} PlannedRowsExactly<R>(table: seq<R>, view: R -> Row, where: Node, budget: int)
    requires Plan(where, budget).Ok? && RespectsGo(table, view)
    ensures |SelectEach(table, view, Plan(where, budget).value)| >= |Select(table, view, where)|
    ensures EachSeenOnce(table, view, where, budget) ==>
              multiset(SelectEach(table, view, Plan(where, budget).value)) == multiset(Select(table, view, where))
    ensures !EachSeenOnce(table, view, where, budget) ==>
              |SelectEach(table, view, Plan(where, budget).value)| > |Select(table, view, where)|
  {
    var plans := Plan(where, budget).value;
    if table == [] {
      SelectNothing<R>(view, plans);
    } else {
      var r, rest := table[0], table[1..];
      assert table == [r] + rest;
      assert RespectsGo(rest, view) by {
        assert forall i :: 0 <= i < |rest| ==> rest[i] == table[i + 1];
      }
      PlannedRowsExactly(rest, view, where, budget);
      OneRowMore(r, rest, view, where, budget);
      Sizes(SelectEach(table, view, plans), SelectEach(rest, view, plans), r, MatchCount(plans, view(r)));
      Sizes(Select(table, view, where), Select(rest, view, where), r, if Matches(where, view(r)) then 1 else 0);
      SeenOnceByRow(table, view, where, budget);
    }
  }

  lemma SeenOnceByRow<R>(table: seq<R>, view: R -> Row, where: Node, budget: int)
    requires Plan(where, budget).Ok? && table != []
    ensures EachSeenOnce(table, view, where, budget) <==>
              && (Matches(where, view(table[0])) ==> SeenOnce(where, budget, view(table[0])))
              && EachSeenOnce(table[1..], view, where, budget)
  {
    var rest := table[1..];
    assert forall i :: 0 <= i < |rest| ==> rest[i] == table[i + 1];
    if !EachSeenOnce(table, view, where, budget) {
      var i :| 0 <= i < |table| && Matches(where, view(table[i])) && !SeenOnce(where, budget, view(table[i]));
      assert i > 0 ==> rest[i - 1] == table[i];
    }
  }

  /** The same as an equivalence, of rows and of their number. */
  lemma PlannedRowsAreTheRows<R>(table: seq<R>, view: R -> Row, where: Node, budget: int)
    requires Plan(where, budget).Ok? && RespectsGo(table, view)
    ensures multiset(SelectEach(table, view, Plan(where, budget).value)) == multiset(Select(table, view, where))
            <==> EachSeenOnce(table, view, where, budget)
    ensures |SelectEach(table, view, Plan(where, budget).value)| == |Select(table, view, where)|
            <==> EachSeenOnce(table, view, where, budget)
  {
    PlannedRowsExactly(table, view, where, budget);
    var a, b := SelectEach(table, view, Plan(where, budget).value), Select(table, view, where);
    assert |multiset(a)| == |a| && |multiset(b)| == |b|;
  }

  lemma {:induction false} SelectNothing<R>(view: R -> Row, wheres: seq<Node>)
    ensures SelectEach([], view, wheres) == []
  {
    if wheres != [] {
      SelectNothing(view, wheres[1..]);
    }
  }

  /**
   * Count sums the counts of the planned statements. That is the count of the
   * original predicate exactly when no matching row is in two of them; a repeated
   * []byte value is enough to be.
   */
  method Count<R>(table: seq<R>, view: R -> Row, where: Node, budget: int, locking: bool)
    returns (r: Result<nat, QueryError>)
    ensures r.Ok? <==> !locking && Plan(where, budget).Ok?
    ensures r.Ok? && RespectsGo(table, view) ==>
              && r.value >= |Select(table, view, where)|
              && (r.value == |Select(table, view, where)| <==> EachSeenOnce(table, view, where, budget))
    ensures r.Err? ==> r.error == if locking then LockingNotSelect else ListTooLarge
  {
    if locking {
      return Err(LockingNotSelect);
    }
    var plans := PlanInChunks(where, budget);
    if plans.Err? {
      return Err(ListTooLarge);
    }
    var ps := plans.value;
    var total := 0;
    for i := 0 to |ps|
      invariant total == |SelectEach(table, view, ps[..i])|
    {
      assert ps[..i + 1] == ps[..i] + [ps[i]];
      SelectEachAppend(table, view, ps[..i], ps[i]);
      var n := |Select(table, view, ps[i])|;
      total := total + n;
    }
    assert ps[..|ps|] == ps;
    if RespectsGo(table, view) {
      PlannedRowsExactly(table, view, where, budget);
      PlannedRowsAreTheRows(table, view, where, budget);
    }
    r := Ok(total);
  }

  // ------------------------------------------------------------------ Stream

  /** What shapes a result besides the predicate; bound says it is ordered, locked or sampled. */
  datatype Shape = Shape(limit: int, offset: int, bound: bool)

  predicate IsShaped(s: Shape) {
    s.limit > 0 || s.offset > 0 || s.bound
  }

  predicate SomeMatches(wheres: seq<Node>, row: Row) {
    exists i :: 0 <= i < |wheres| && Matches(wheres[i], row)
  }

  /** For every row, some statement lets it through if and only if the predicate does. */
  ghost predicate SameRows(where: Node, wheres: seq<Node>) {
    forall row :: RespectsGoEquality(row) ==> (Matches(where, row) <==> SomeMatches(wheres, row))
  }

  predicate AllFit(wheres: seq<Node>, budget: int) {
    forall i :: 0 <= i < |wheres| ==> CountArgs(wheres[i]) <= budget
  }

  /** The statements that streamWheres returns for a plan: what it plans, unless one is enough. */
  lemma StreamedIsPlanned(where: Node, budget: int, wheres: seq<Node>)
    requires Plan(where, budget).Ok?
    requires wheres == if FitsOne(where, budget) then [where] else Plan(where, budget).value
    ensures SameRows(where, wheres)
    ensures AllFit(wheres, budget) <==> CountArgs(where) <= budget || !FitsOne(where, budget)
  {
    forall row | RespectsGoEquality(row) ensures Matches(where, row) <==> SomeMatches(wheres, row) {
      PlanKeepsMeaning(where, budget, row);
      assert FitsOne(where, budget) ==> wheres[0] == where;
    }
    PlansFitBudget(where, budget);
    assert FitsOne(where, budget) ==> wheres[0] == where;
  }

  /**
   * The predicates Stream runs let the same rows through. A shaped query gets
   * one statement or an error. A single plan is run as the caller wrote it, so
   * one statement is over budget exactly when only the repeated values make it so.
   */
  method StreamWheres(where: Node, budget: int, shape: Shape) returns (r: Result<seq<Node>, QueryError>)
    ensures r.Ok? <==> Plan(where, budget).Ok? && (shape.limit > 0 || shape.offset > 0 || shape.bound ==> FitsOne(where, budget))
    ensures r.Err? ==> r.error == ListTooLarge
    ensures r.Ok? ==> r.value == (if FitsOne(where, budget) then [where] else Plan(where, budget).value)
    ensures r.Ok? ==> SameRows(where, r.value)
    ensures r.Ok? ==> (AllFit(r.value, budget) <==> !(CountArgs(where) > budget && CountArgs(DedupeIns(where, true)) <= budget))
  {
    var plans := PlanInChunks(where, budget);
    if plans.Err? {
      return Err(ListTooLarge);
    }
    SinglePlan(where, budget);
    if |plans.value| == 1 {
      StreamedIsPlanned(where, budget, [where]);
      return Ok([where]);
    }
    if IsShaped(shape) {
      return Err(ListTooLarge);
    }
    var wheres: seq<Node> := [];
    for i := 0 to |plans.value|
      invariant wheres == plans.value[..i]
    {
      wheres := wheres + [plans.value[i]];
    }
    assert plans.value[..|plans.value|] == plans.value;
    StreamedIsPlanned(where, budget, wheres);
    r := Ok(wheres);
  }

  /** What one statement returns, with LIMIT and OFFSET. */
  function Returned<R>(table: seq<R>, view: R -> Row, where: Node, shape: Shape): seq<R> {
    Page(Select(table, view, where), shape.limit, shape.offset)
  }

  /**
   * Stream yields the rows of the original predicate, each exactly as often, if
   * and only if no matching row is in two of its statements. A shaped query is
   * one statement with the original predicate, LIMIT and OFFSET,
   * or fails closed.
   */
  method Stream<R>(table: seq<R>, view: R -> Row, where: Node, budget: int, shape: Shape)
    returns (r: Result<seq<R>, QueryError>)
    ensures r.Ok? <==> Plan(where, budget).Ok? && (shape.limit > 0 || shape.offset > 0 || shape.bound ==> FitsOne(where, budget))
    ensures r.Ok? && FitsOne(where, budget) ==> r.value == Returned(table, view, where, shape)
    ensures r.Ok? && !IsShaped(shape) && RespectsGo(table, view) ==>
              (multiset(r.value) == multiset(Select(table, view, where)) <==> EachSeenOnce(table, view, where, budget))
  {
    var wheres := StreamWheres(where, budget, shape);
    if wheres.Err? {
      return Err(wheres.error);
    }
    var ws := wheres.value;
    var out: seq<R> := [];
    for i := 0 to |ws|
      invariant !IsShaped(shape) ==> out == SelectEach(table, view, ws[..i])
      invariant FitsOne(where, budget) ==> out == if i == 0 then [] else Returned(table, view, where, shape)
    {
      assert ws[..i + 1] == ws[..i] + [ws[i]];
      SelectEachAppend(table, view, ws[..i], ws[i]);
      out := out + Returned(table, view, ws[i], shape);
    }
    assert ws[..|ws|] == ws;
    if !FitsOne(where, budget) && RespectsGo(table, view) {
      PlannedRowsAreTheRows(table, view, where, budget);
    }
    r := Ok(out);
  }

  // ------------------------------------------------------------- Query.Where

  /** Query.Where: the predicate is ANDed to one already set. */
  function AddWhere(where: Node, p: Node): Node {
    if where.NoPredicate? then p else Combine(CAnd, [where, p])
  }

  lemma AddWhereMatches(where: Node, p: Node, row: Row)
    ensures Matches(AddWhere(where, p), row) <==> Matches(where, row) && Matches(p, row)
  {
    AndMatches([where, p], row);
    assert where in [where, p] && p in [where, p];
  }

  lemma AddWhereCount(where: Node, p: Node)
    requires !p.NoPredicate?
    ensures CountArgs(AddWhere(where, p)) == CountArgs(where) + CountArgs(p)
  {
    if !where.NoPredicate? {
      var isSet := (n: Node) => !n.NoPredicate?;
      assert [where, p][1..] == [p] && [p][1..] == [];
      assert Filter([p], isSet) == [p];
      assert Filter([where, p], isSet) == [where, p];
      assert CountAll([p]) == CountArgs(p);
    }
  }
}
