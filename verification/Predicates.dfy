/**
 * Predicate trees (orm/predicate.go) and their meaning under the three-valued
 * logic of SQL, as orm/render writes them out.
 */
module Predicates {
  import opened Basics

  datatype Truth = True | False | Unknown

  function And3(a: Truth, b: Truth): Truth {
    if a == False || b == False then False
    else if a == True && b == True then True
    else Unknown
  }

  function Or3(a: Truth, b: Truth): Truth {
    if a == True || b == True then True
    else if a == False && b == False then False
    else Unknown
  }

  function Not3(a: Truth): Truth {
    match a
    case True => False
    case False => True
    case Unknown => Unknown
  }

  /**
   * A bound argument (a Go value of dynamic type). Comparable values with one
   * key are equal under Go's ==, even where their representations differ
   * (0.0 and -0.0). NotANumber is hashable but not equal to itself; Unhashable
   * cannot be a map key at all ([]byte).
   */
  datatype Value =
    | Null
    | Comparable(key: int, repr: int)
    | NotANumber(repr: int)
    | Unhashable(repr: int)

  predicate GoEqual(v: Value, w: Value) {
    || (v.Null? && w.Null?)
    || (v.Comparable? && w.Comparable? && v.key == w.key)
  }

  datatype Op = Eq | Neq | Gt | Gte | Lt | Lte | IsNull | IsNotNull

  datatype CompoundOp = CAnd | COr | CNot

  /** Node, one constructor per kind that the planner tells apart. */
  datatype Node =
    | NoPredicate
    | Binary(column: string, op: Op, value: Value)
    | InList(column: string, negated: bool, values: seq<Value>)
    | InSubquery(column: string, negated: bool, id: int)
    | Between(column: string, lo: Value, hi: Value)
    | Like(column: string, pattern: Value)
    | Opaque(id: int)
    | Compound(compound: CompoundOp, children: seq<Node>)

  /**
   * What a row makes of the parts the planner cannot see into: eq is the
   * three-valued result of column = value, leaf that of every other leaf.
   */
  datatype Row = Row(eq: (string, Value) -> Truth, leaf: Node -> Truth)

  /** column IN (values): the disjunction of column = v over the list. */
  function InTruth(row: Row, column: string, values: seq<Value>): Truth {
    if values == [] then False
    else Or3(row.eq(column, values[0]), InTruth(row, column, values[1..]))
  }

  /**
   * The truth value of a rendered predicate. An empty list renders as the
   * constant false whether negated or not; a child without predicate is left
   * out of AND and OR.
   */
  function Eval(n: Node, row: Row): Truth
    decreases n, 0
  {
    match n
    case NoPredicate => True
    case InList(column, negated, values) =>
      if values == [] then False
      else if negated then Not3(InTruth(row, column, values))
      else InTruth(row, column, values)
    case Compound(op, children) =>
      if op == CAnd then EvalAll(children, row)
      else if op == COr then EvalAny(children, row)
      else if |children| == 1 then Not3(Eval(children[0], row))
      else row.leaf(n)
    case _ => row.leaf(n)
  }

  function EvalAll(ns: seq<Node>, row: Row): Truth
    decreases ns, 1
  {
    if ns == [] then True else And3(Eval(ns[0], row), EvalAll(ns[1..], row))
  }

  function EvalAny(ns: seq<Node>, row: Row): Truth
    decreases ns, 1
  {
    if ns == [] then False
    else if ns[0].NoPredicate? then EvalAny(ns[1..], row)
    else Or3(Eval(ns[0], row), EvalAny(ns[1..], row))
  }

  /** The values that a rendered predicate binds, in the order of its placeholders. */
  function Bound(n: Node): seq<Value>
    decreases n, 0
  {
    match n
    case Binary(_, op, value) => if op == IsNull || op == IsNotNull then [] else [value]
    case InList(_, _, values) => values
    case Between(_, lo, hi) => [lo, hi]
    case Like(_, pattern) => [pattern]
    case Compound(op, children) => if op == CNot && |children| != 1 then [] else BoundAll(children)
    case _ => []
  }

  function BoundAll(ns: seq<Node>): seq<Value>
    decreases ns, 1
  {
    if ns == [] then [] else Bound(ns[0]) + BoundAll(ns[1..])
  }

  /** TRUE, the only truth value that lets a row through a WHERE clause. */
  predicate Matches(n: Node, row: Row) {
    Eval(n, row) == True
  }

  lemma {:induction false} EvalAllTrue(ns: seq<Node>, row: Row)
    ensures EvalAll(ns, row) == True <==> forall i :: 0 <= i < |ns| ==> Matches(ns[i], row)
  {
    if ns != [] {
      EvalAllTrue(ns[1..], row);
      assert forall i :: 1 <= i < |ns| ==> ns[i] == ns[1..][i - 1];
      assert forall i :: 0 <= i < |ns| - 1 ==> ns[1..][i] == ns[i + 1];
    }
  }

  lemma {:induction false} EvalAllCongruent(ms: seq<Node>, ns: seq<Node>, row: Row)
    requires |ms| == |ns| && forall i :: 0 <= i < |ns| ==> Eval(ms[i], row) == Eval(ns[i], row)
    ensures EvalAll(ms, row) == EvalAll(ns, row)
  {
    if ns != [] {
      EvalAllCongruent(ms[1..], ns[1..], row);
    }
  }

  lemma {:induction false} EvalAnyTrue(ns: seq<Node>, row: Row)
    requires forall i :: 0 <= i < |ns| ==> !ns[i].NoPredicate?
    ensures EvalAny(ns, row) == True <==> exists i :: 0 <= i < |ns| && Matches(ns[i], row)
  {
    if ns != [] {
      EvalAnyTrue(ns[1..], row);
      assert forall i :: 1 <= i < |ns| ==> ns[i] == ns[1..][i - 1];
      assert forall i :: 0 <= i < |ns| - 1 ==> ns[1..][i] == ns[i + 1];
    }
  }

  /** IN is TRUE when a value matches, else UNKNOWN when a comparison is. */
  lemma {:induction false} InTruthByMembers(row: Row, column: string, values: seq<Value>)
    ensures InTruth(row, column, values) == True <==> exists v :: v in values && row.eq(column, v) == True
    ensures InTruth(row, column, values) == False <==> forall v :: v in values ==> row.eq(column, v) == False
  {
    if values != [] {
      InTruthByMembers(row, column, values[1..]);
      assert forall v :: v in values <==> v == values[0] || v in values[1..];
    }
  }

  /** And and Or, which drop unset predicates and never wrap a lone child. */
  function Combine(op: CompoundOp, ps: seq<Node>): Node {
    var kept := Filter(ps, (p: Node) => !p.NoPredicate?);
    if |kept| == 0 then NoPredicate
    else if |kept| == 1 then kept[0]
    else Compound(op, kept)
  }

  /** The loop of combine, which filters the children one by one. */
  method CombineLoop(op: CompoundOp, ps: seq<Node>) returns (n: Node)
    ensures n == Combine(op, ps)
  {
    var children: seq<Node> := [];
    var isSet := (p: Node) => !p.NoPredicate?;
    for i := 0 to |ps|
      invariant children == Filter(ps[..i], isSet)
    {
      assert ps[..i + 1] == ps[..i] + [ps[i]];
      FilterConcat(ps[..i], [ps[i]], isSet);
      if !ps[i].NoPredicate? {
        children := children + [ps[i]];
      }
    }
    assert ps[..|ps|] == ps;
    if |children| == 0 {
      n := NoPredicate;
    } else if |children| == 1 {
      n := children[0];
    } else {
      n := Compound(op, children);
    }
  }

  /** However it collapses, And matches a row when every argument does. */
  lemma AndMatches(ps: seq<Node>, row: Row)
    ensures Matches(Combine(CAnd, ps), row) <==> forall p :: p in ps ==> Matches(p, row)
  {
    var kept := Filter(ps, (p: Node) => !p.NoPredicate?);
    FilterMembers(ps, (p: Node) => !p.NoPredicate?);
    EvalAllTrue(kept, row);
    assert forall p :: p in ps ==> p.NoPredicate? || p in kept;
    if |kept| == 1 {
      assert forall p :: p in kept ==> p == kept[0];
    }
    if Matches(Combine(CAnd, ps), row) {
      forall p | p in ps ensures Matches(p, row) {
        if !p.NoPredicate? {
          assert p in kept;
        }
      }
    } else {
      assert |kept| > 0;
      if |kept| == 1 {
        assert kept[0] in ps;
      } else {
        var i :| 0 <= i < |kept| && !Matches(kept[i], row);
        assert kept[i] in ps;
      }
    }
  }

  /** Or, however it collapses, matches a row when some set argument does, or when none is set. */
  lemma OrMatches(ps: seq<Node>, row: Row)
    ensures Matches(Combine(COr, ps), row) <==>
              || (forall p :: p in ps ==> p.NoPredicate?)
              || exists p :: p in ps && !p.NoPredicate? && Matches(p, row)
  {
    var kept := Filter(ps, (p: Node) => !p.NoPredicate?);
    FilterMembers(ps, (p: Node) => !p.NoPredicate?);
    assert forall i :: 0 <= i < |kept| ==> kept[i] in kept;
    EvalAnyTrue(kept, row);
    if |kept| == 0 {
      assert forall p :: p in ps && !p.NoPredicate? ==> p in kept;
    } else {
      assert kept[0] in ps && !kept[0].NoPredicate?;
      if Matches(Combine(COr, ps), row) {
        var i :| 0 <= i < |kept| && Matches(kept[i], row);
        assert kept[i] in ps;
      }
      if p :| p in ps && !p.NoPredicate? && Matches(p, row) {
        assert p in kept;
      }
    }
  }
}
