/**
 * Keyset pagination of orm/cursor.go: the predicate "strictly after this
 * row" and what repeating it page by page adds up to.
 */
module Keyset {
  import opened Basics
  import opened Predicates
  import opened Query

  // ----------------------------------------------------------------- the code

  datatype TupleError = NoColumns | LengthMismatch(columns: nat, values: nat)

  function RelOp(desc: bool): Op {
    if desc then Lt else Gt
  }

  /** cols[0] = values[0] AND ... AND cols[i] > values[i] */
  function Term(cols: seq<string>, values: seq<Value>, i: nat, desc: bool): Node
    requires i < |cols| == |values|
  {
    Combine(CAnd, Equalities(cols, values, i) + [Binary(cols[i], RelOp(desc), values[i])])
  }

  function Equalities(cols: seq<string>, values: seq<Value>, i: nat): seq<Node>
    requires i <= |cols| == |values|
  {
    seq(i, j requires 0 <= j < i => Binary(cols[j], Eq, values[j]))
  }

  function Terms(cols: seq<string>, values: seq<Value>, n: nat, desc: bool): seq<Node>
    requires n <= |cols| == |values|
  {
    seq(n, i requires 0 <= i < n => Term(cols, values, i, desc))
  }

  function After(cols: seq<string>, values: seq<Value>, desc: bool): Node
    requires |cols| == |values|
  {
    Combine(COr, Terms(cols, values, |cols|, desc))
  }

  /** keysetAfter */
  method KeysetAfter(cols: seq<string>, values: seq<Value>, desc: bool) returns (n: Node)
    requires |cols| == |values| > 0
    ensures n == After(cols, values, desc)
  {
    var terms: seq<Node> := [];
    for i := 0 to |cols|
      invariant terms == Terms(cols, values, i, desc)
    {
      var prefix: seq<Node> := [];
      for j := 0 to i
        invariant prefix == Equalities(cols, values, j)
      {
        prefix := prefix + [Binary(cols[j], Eq, values[j])];
      }
      prefix := prefix + [Binary(cols[i], RelOp(desc), values[i])];
      var term := CombineLoop(CAnd, prefix);
      terms := terms + [term];
    }
    n := CombineLoop(COr, terms);
  }

  method AfterTuple(cols: seq<string>, values: seq<Value>, desc: bool) returns (r: Result<Node, TupleError>)
    ensures r.Ok? <==> |cols| == |values| > 0
    ensures r.Ok? ==> r.value == After(cols, values, desc)
    ensures r.Err? ==> r.error == if cols == [] then NoColumns else LengthMismatch(|cols|, |values|)
  {
    if |cols| == 0 {
      return Err(NoColumns);
    }
    if |cols| != |values| {
      return Err(LengthMismatch(|cols|, |values|));
    }
    var n := KeysetAfter(cols, values, desc);
    r := Ok(n);
  }

  /** CursorKey: one column, its value on the last row, the direction. */
  datatype CursorKey = CursorKey(column: string, value: Value, desc: bool)

  /** CursorKey.Predicate */
  function CursorPredicate(k: CursorKey): Node {
    Binary(k.column, RelOp(k.desc), k.value)
  }

  /** NextPage, as far as it changes the query. */
  function NextPage(where: Node, k: CursorKey): Node {
    AddWhere(where, CursorPredicate(k))
  }

  /** A cursor on one column is the tuple form of length one, to the letter. */
  lemma CursorIsTupleOfOne(where: Node, k: CursorKey)
    ensures CursorPredicate(k) == After([k.column], [k.value], k.desc)
    ensures NextPage(where, k) == AddWhere(where, After([k.column], [k.value], k.desc))
  {
    var n := Binary(k.column, RelOp(k.desc), k.value);
    var isSet := (p: Node) => !p.NoPredicate?;
    assert [n][1..] == [] && Filter([n], isSet) == [n];
    assert Equalities([k.column], [k.value], 0) + [n] == [n];
    assert Term([k.column], [k.value], 0, k.desc) == n;
    assert Terms([k.column], [k.value], 1, k.desc) == [n];
  }

  // ------------------------------------------------------ lexicographic order

  /**
   * Where a column's value stands in ORDER BY: a value by its place among the
   * values (any countable order fits into the reals), NULL before or behind all.
   */
  datatype Place = NullFirst | At(value: real) | NullLast

  type Key = seq<Place>

  /** What SQL's < and > find: nothing for NULL. */
  predicate Beyond(a: Place, b: Place, desc: bool) {
    a.At? && b.At? && if desc then a.value < b.value else a.value > b.value
  }

  /** What ORDER BY does: NULLs have their place too. */
  predicate Comes(a: Place, b: Place, desc: bool) {
    || Beyond(a, b, desc)
    || (a.NullLast? && !b.NullLast?)
    || (!a.NullFirst? && b.NullFirst?)
  }

  /** a is strictly after b in the first column that tells them apart, and no NULL stands before or in it. */
  predicate LexAfter(a: Key, b: Key, desc: bool) {
    && a != [] && b != []
    && (if a[0] == b[0] then a[0].At? && LexAfter(a[1..], b[1..], desc) else Beyond(a[0], b[0], desc))
  }

  /** a comes strictly after b in ORDER BY over all columns, each in the same direction. */
  predicate OrderAfter(a: Key, b: Key, desc: bool) {
    && a != [] && b != []
    && (if a[0] == b[0] then OrderAfter(a[1..], b[1..], desc) else Comes(a[0], b[0], desc))
  }

  /** Some column tells a and b apart, and neither has a NULL before or in it. */
  predicate Apart(a: Key, b: Key) {
    && a != [] && b != []
    && a[0].At? && b[0].At? && (a[0] == b[0] ==> Apart(a[1..], b[1..]))
  }

  predicate NoNulls(a: Key) {
    forall i :: 0 <= i < |a| ==> a[i].At?
  }

  /** Column i decides. */
  predicate DecidedAt(a: Key, b: Key, desc: bool, i: nat) {
    && i < |a| && i < |b|
    && (forall j :: 0 <= j < i ==> a[j] == b[j] && a[j].At?)
    && Beyond(a[i], b[i], desc)
  }

  lemma {:induction false} LexAfterDecided(a: Key, b: Key, desc: bool)
    ensures LexAfter(a, b, desc) <==> exists i: nat :: DecidedAt(a, b, desc, i)
  {
    if a != [] && b != [] {
      LexAfterDecided(a[1..], b[1..], desc);
      if LexAfter(a, b, desc) {
        if a[0] == b[0] {
          var i: nat :| DecidedAt(a[1..], b[1..], desc, i);
          assert forall j :: 0 < j < i + 1 ==> a[j] == a[1..][j - 1] && b[j] == b[1..][j - 1];
          assert DecidedAt(a, b, desc, i + 1);
        } else {
          assert DecidedAt(a, b, desc, 0);
        }
      }
      if i: nat :| DecidedAt(a, b, desc, i) {
        if i > 0 {
          assert DecidedAt(a[1..], b[1..], desc, i - 1);
        }
      }
    }
  }

  lemma {:induction false} LexTransitive(a: Key, b: Key, c: Key, desc: bool)
    ensures LexAfter(a, b, desc) && LexAfter(b, c, desc) ==> LexAfter(a, c, desc)
  {
    if a != [] && b != [] && c != [] && a[0] == b[0] == c[0] {
      LexTransitive(a[1..], b[1..], c[1..], desc);
    }
  }

  lemma {:induction false} OrderTransitive(a: Key, b: Key, c: Key, desc: bool)
    ensures OrderAfter(a, b, desc) && OrderAfter(b, c, desc) ==> OrderAfter(a, c, desc)
  {
    if a != [] && b != [] && c != [] && a[0] == b[0] == c[0] {
      OrderTransitive(a[1..], b[1..], c[1..], desc);
    }
  }

  lemma {:induction false} OrderAsymmetric(a: Key, b: Key, desc: bool)
    ensures !(OrderAfter(a, b, desc) && OrderAfter(b, a, desc))
  {
    if a != [] && b != [] {
      OrderAsymmetric(a[1..], b[1..], desc);
    }
  }

  lemma {:induction false} OrderTotal(a: Key, b: Key, desc: bool)
    requires |a| == |b|
    ensures a == b || OrderAfter(a, b, desc) || OrderAfter(b, a, desc)
  {
    if a != [] {
      OrderTotal(a[1..], b[1..], desc);
      if a[0] == b[0] && a[1..] == b[1..] {
        assert a == [a[0]] + a[1..] && b == [b[0]] + b[1..];
      }
    }
  }

  /** What a cursor finds after a row ORDER BY puts after it. */
  lemma {:induction false} LexIsOrder(a: Key, b: Key, desc: bool)
    ensures LexAfter(a, b, desc) ==> OrderAfter(a, b, desc)
  {
    if a != [] && b != [] {
      LexIsOrder(a[1..], b[1..], desc);
    }
  }

  lemma LexAsymmetric(a: Key, b: Key, desc: bool)
    ensures !(LexAfter(a, b, desc) && LexAfter(b, a, desc))
  {
    OrderAsymmetric(a, b, desc);
    LexIsOrder(a, b, desc);
    LexIsOrder(b, a, desc);
  }

  /** In either direction one of two keys is strictly after the other exactly when they are apart. */
  lemma {:induction false} ApartIsDecided(a: Key, b: Key, desc: bool)
    ensures Apart(a, b) <==> LexAfter(a, b, desc) || LexAfter(b, a, desc)
  {
    if a != [] && b != [] {
      ApartIsDecided(a[1..], b[1..], desc);
    }
  }

  /** Without NULLs that is: exactly when they differ. */
  lemma {:induction false} ApartWithoutNulls(a: Key, b: Key)
    requires |a| == |b| && NoNulls(a) && NoNulls(b)
    ensures Apart(a, b) <==> a != b
  {
    if a != [] {
      ApartWithoutNulls(a[1..], b[1..]);
      assert a == [a[0]] + a[1..] && b == [b[0]] + b[1..];
    }
  }

  // -------------------------------------------------------- what After means

  /** SQL's comparison of a with b: unknown where one is NULL. */
  function Compared(holds: bool, a: Place, b: Place): Truth {
    if !(a.At? && b.At?) then Unknown else if holds then True else False
  }

  /** SQL compares the row's columns with the values as the keys compare. */
  ghost predicate Compares(row: Row, cols: seq<string>, values: seq<Value>, key: Key, mark: Key) {
    && |cols| == |values| == |key| == |mark|
    && forall i :: 0 <= i < |cols| ==>
         && row.leaf(Binary(cols[i], Eq, values[i])) == Compared(key[i] == mark[i], key[i], mark[i])
         && row.leaf(Binary(cols[i], Gt, values[i])) == Compared(Beyond(key[i], mark[i], false), key[i], mark[i])
         && row.leaf(Binary(cols[i], Lt, values[i])) == Compared(Beyond(key[i], mark[i], true), key[i], mark[i])
  }

  /** SQL finds the row equal in all columns before i and beyond the value in column i. */
  predicate BeyondAt(cols: seq<string>, values: seq<Value>, desc: bool, row: Row, i: nat)
    requires i < |cols| == |values|
  {
    && (forall j :: 0 <= j < i ==> row.leaf(Binary(cols[j], Eq, values[j])) == True)
    && row.leaf(Binary(cols[i], RelOp(desc), values[i])) == True
  }

  lemma TermMatches(cols: seq<string>, values: seq<Value>, i: nat, desc: bool, row: Row)
    requires i < |cols| == |values|
    ensures !Term(cols, values, i, desc).NoPredicate?
    ensures Matches(Term(cols, values, i, desc), row) <==> BeyondAt(cols, values, desc, row, i)
  {
    var eqs, last := Equalities(cols, values, i), Binary(cols[i], RelOp(desc), values[i]);
    var all := eqs + [last];
    AndMatches(all, row);
    FilterMembers(all, (p: Node) => !p.NoPredicate?);
    assert all[i] == last && last in all;
    if Matches(Combine(CAnd, all), row) {
      forall j | 0 <= j < i ensures row.leaf(Binary(cols[j], Eq, values[j])) == True {
        assert all[j] == Binary(cols[j], Eq, values[j]) && Matches(all[j], row);
      }
      assert Matches(last, row);
    }
    assert last in Filter(all, (p: Node) => !p.NoPredicate?);
  }

  /** For every row, NULLs or not: some column is beyond its value and all before it are equal to theirs. */
  lemma AfterMatches(cols: seq<string>, values: seq<Value>, desc: bool, row: Row)
    requires |cols| == |values| > 0
    ensures Matches(After(cols, values, desc), row) <==> exists i :: 0 <= i < |cols| && BeyondAt(cols, values, desc, row, i)
  {
    var terms := Terms(cols, values, |cols|, desc);
    forall i | 0 <= i < |cols| ensures !terms[i].NoPredicate? && (Matches(terms[i], row) <==> BeyondAt(cols, values, desc, row, i)) {
      TermMatches(cols, values, i, desc, row);
    }
    assert terms[0] in terms && forall p :: p in terms ==> !p.NoPredicate?;
    OrMatches(terms, row);
    if i :| 0 <= i < |cols| && BeyondAt(cols, values, desc, row, i) {
      assert terms[i] in terms;
    }
  }

  /** The OR-expansion is strict lexicographic order, in either direction, for any number of columns, NULLs or not. */
  lemma AfterIsLexicographic(cols: seq<string>, values: seq<Value>, desc: bool, row: Row, key: Key, mark: Key)
    requires |cols| > 0 && Compares(row, cols, values, key, mark)
    ensures Matches(After(cols, values, desc), row) <==> LexAfter(key, mark, desc)
  {
    AfterMatches(cols, values, desc, row);
    LexAfterDecided(key, mark, desc);
    forall i | 0 <= i < |cols| ensures BeyondAt(cols, values, desc, row, i) <==> DecidedAt(key, mark, desc, i) {
    }
  }

  /**
   * A row with a NULL in an ordering column is after no row that is not told from
   * it by an earlier column, whichever way one travels and wherever NULLs stand.
   */
  lemma NullKeyIsNeverAfter(cols: seq<string>, values: seq<Value>, desc: bool, row: Row, i: nat)
    requires i < |cols| == |values|
    requires row.leaf(Binary(cols[i], Eq, values[i])) == Unknown && row.leaf(Binary(cols[i], RelOp(desc), values[i])) == Unknown
    requires forall j :: 0 <= j < i ==> row.leaf(Binary(cols[j], RelOp(desc), values[j])) != True
    ensures !Matches(After(cols, values, desc), row)
  {
    AfterMatches(cols, values, desc, row);
  }

  // --------------------------------------------------------------- whole runs

  /**
   * A table to page through: what predicates see of a row, its key in the
   * columns of ORDER BY, and the values a program reads off it for a cursor.
   */
  datatype Table<!R> = Table(rows: seq<R>, view: R -> Row, cols: seq<string>, desc: bool, key: R -> Key, mark: R -> seq<Value>)

  /** Row i, with row j in the cursor. */
  ghost predicate RowsCompare<R>(t: Table<R>, i: nat, j: nat)
    requires i < |t.rows| && j < |t.rows|
  {
    Compares(t.view(t.rows[i]), t.cols, t.mark(t.rows[j]), t.key(t.rows[i]), t.key(t.rows[j]))
  }

  predicate KeysApart<R>(t: Table<R>, i: nat, j: nat)
    requires i < |t.rows| && j < |t.rows|
  {
    Apart(t.key(t.rows[i]), t.key(t.rows[j]))
  }

  /** Keys that SQL compares as it orders them. */
  ghost predicate HasKeys<R>(t: Table<R>) {
    && |t.cols| > 0
    && (forall i, j :: 0 <= i < |t.rows| && 0 <= j < |t.rows| ==> RowsCompare(t, i, j))
  }

  /** And any two apart: without NULLs, pairwise distinct ones. */
  ghost predicate Keyed<R>(t: Table<R>) {
    HasKeys(t) && forall i, j :: 0 <= i < j < |t.rows| ==> KeysApart(t, i, j)
  }

  /** In the order of ORDER BY, strictly. */
  ghost predicate Sorted<R>(t: Table<R>, s: seq<R>) {
    forall i, j :: 0 <= i < j < |s| ==> LexAfter(t.key(s[j]), t.key(s[i]), t.desc)
  }

  /** In the order of ORDER BY, ties in any order. */
  ghost predicate Ordered<R>(t: Table<R>, s: seq<R>) {
    forall i, j :: 0 <= i < j < |s| ==> !OrderAfter(t.key(s[i]), t.key(s[j]), t.desc)
  }

  /** out is a result of the statement without LIMIT: the matching rows, ordered. */
  ghost predicate IsResult<R>(t: Table<R>, where: Node, out: seq<R>) {
    multiset(out) == multiset(Select(t.rows, t.view, where)) && Ordered(t, out)
  }

  /** What LIMIT n lets through of a statement's result. */
  function FirstRows<R>(result: seq<R>, n: nat): seq<R> {
    result[..Min(n, |result|)]
  }

  /** The next page's predicate: the same base predicate, after the last row read. */
  function AfterRow<R>(t: Table<R>, where: Node, last: R): Node
    requires |t.cols| == |t.mark(last)|
  {
    AddWhere(where, After(t.cols, t.mark(last), t.desc))
  }

  /**
   * A whole run: pages of n rows, each read after the last row of the one
   * before it, until a page is not full. now is the predicate of the first;
   * results holds what each statement would return without LIMIT.
   */
  ghost predicate IsRun<R>(t: Table<R>, where: Node, now: Node, n: nat, results: seq<seq<R>>)
    decreases |results|
  {
    && results != [] && IsResult(t, now, results[0])
    && (if |results[0]| < n then |results| == 1
        else
          && n > 0
          && var last := results[0][n - 1];
             |t.cols| == |t.mark(last)| && IsRun(t, where, AfterRow(t, where, last), n, results[1..]))
  }

  /** The rows of all pages, one page after the other. */
  function AllPages<R>(results: seq<seq<R>>, n: nat): seq<R> {
    if results == [] then [] else FirstRows(results[0], n) + AllPages(results[1..], n)
  }

  lemma {:induction false} SelectMembers<R>(rows: seq<R>, view: R -> Row, where: Node, x: R)
    ensures x in Select(rows, view, where) <==> x in rows && Matches(where, view(x))
  {
    if rows != [] {
      SelectMembers(rows[1..], view, where, x);
      assert x in rows <==> x == rows[0] || x in rows[1..];
    }
  }

  lemma ResultMembers<R>(t: Table<R>, where: Node, out: seq<R>, x: R)
    requires IsResult(t, where, out)
    ensures x in out <==> x in t.rows && Matches(where, t.view(x))
  {
    SelectMembers(t.rows, t.view, where, x);
    assert x in out <==> x in multiset(out);
    assert x in Select(t.rows, t.view, where) <==> x in multiset(Select(t.rows, t.view, where));
  }

  lemma {:induction false} SelectAtMostOnce<R>(rows: seq<R>, view: R -> Row, where: Node, x: R)
    requires forall i, j :: 0 <= i < j < |rows| ==> rows[i] != rows[j]
    ensures multiset(Select(rows, view, where))[x] <= 1
  {
    if rows != [] {
      SelectAtMostOnce(rows[1..], view, where, x);
      SelectMembers(rows[1..], view, where, x);
      assert rows == [rows[0]] + rows[1..];
      SelectByRow(rows[0], rows[1..], view, where);
    }
  }

  lemma TwiceInSequence<R>(s: seq<R>, i: nat, j: nat)
    requires i < j < |s| && s[i] == s[j]
    ensures multiset(s)[s[i]] >= 2
  {
    assert s == s[..j] + s[j..];
    assert s[i] in s[..j] && s[j] in s[j..];
    assert multiset(s) == multiset(s[..j]) + multiset(s[j..]);
  }

  lemma RowsAreDistinct<R>(t: Table<R>)
    requires Keyed(t)
    ensures forall i, j :: 0 <= i < j < |t.rows| ==> t.rows[i] != t.rows[j]
  {
    forall i, j | 0 <= i < j < |t.rows| ensures t.rows[i] != t.rows[j] {
      assert KeysApart(t, i, j);
      ApartIsDecided(t.key(t.rows[i]), t.key(t.rows[j]), t.desc);
      LexAsymmetric(t.key(t.rows[i]), t.key(t.rows[j]), t.desc);
    }
  }

  /** With keys that are apart there are no ties. */
  lemma ResultIsSorted<R>(t: Table<R>, where: Node, out: seq<R>)
    requires Keyed(t) && IsResult(t, where, out)
    ensures Sorted(t, out)
  {
    forall i, j | 0 <= i < j < |out| ensures LexAfter(t.key(out[j]), t.key(out[i]), t.desc) {
      ResultMembers(t, where, out, out[i]);
      ResultMembers(t, where, out, out[j]);
      var a :| 0 <= a < |t.rows| && t.rows[a] == out[i];
      var b :| 0 <= b < |t.rows| && t.rows[b] == out[j];
      if out[i] == out[j] {
        TwiceInSequence(out, i, j);
        RowsAreDistinct(t);
        SelectAtMostOnce(t.rows, t.view, where, out[i]);
      }
      assert a != b && RowsCompare(t, a, b) && (if a < b then KeysApart(t, a, b) else KeysApart(t, b, a));
      ApartIsDecided(t.key(t.rows[a]), t.key(t.rows[b]), t.desc);
      ApartIsDecided(t.key(t.rows[b]), t.key(t.rows[a]), t.desc);
      LexIsOrder(t.key(out[i]), t.key(out[j]), t.desc);
    }
  }

  lemma {:induction false} FilterCounts<R>(s: seq<R>, keep: R -> bool, x: R)
    ensures multiset(Filter(s, keep))[x] == if keep(x) then multiset(s)[x] else 0
  {
    if s != [] {
      FilterCounts(s[1..], keep, x);
      assert s == [s[0]] + s[1..];
    }
  }

  lemma {:induction false} FilterTwice<R>(s: seq<R>, p: R -> bool, q: R -> bool)
    ensures Filter(Filter(s, p), q) == Filter(s, (x: R) => p(x) && q(x))
  {
    if s != [] {
      FilterTwice(s[1..], p, q);
    }
  }

  /** What comes after row i of a sorted result is the rest of that result. */
  lemma AfterSplits<R>(t: Table<R>, where: Node, full: seq<R>, i: nat, x: R)
    requires Keyed(t) && IsResult(t, where, full) && i < |full| && x in full
    ensures full[i] in t.rows && |t.mark(full[i])| == |t.cols|
    ensures Matches(After(t.cols, t.mark(full[i]), t.desc), t.view(x)) <==> LexAfter(t.key(x), t.key(full[i]), t.desc)
  {
    ResultMembers(t, where, full, full[i]);
    ResultMembers(t, where, full, x);
    var a :| 0 <= a < |t.rows| && t.rows[a] == full[i];
    var b :| 0 <= b < |t.rows| && t.rows[b] == x;
    assert RowsCompare(t, b, a);
    AfterIsLexicographic(t.cols, t.mark(full[i]), t.desc, t.view(x), t.key(x), t.key(full[i]));
  }

  lemma {:induction false} FilterAll<R>(s: seq<R>, keep: R -> bool)
    requires forall i :: 0 <= i < |s| ==> keep(s[i])
    ensures Filter(s, keep) == s
  {
    if s != [] {
      FilterAll(s[1..], keep);
    }
  }

  lemma {:induction false} FilterNone<R>(s: seq<R>, keep: R -> bool)
    requires forall i :: 0 <= i < |s| ==> !keep(s[i])
    ensures Filter(s, keep) == []
  {
    if s != [] {
      FilterNone(s[1..], keep);
    }
  }

  lemma {:induction false} FilterSuffix<R>(s: seq<R>, keep: R -> bool, k: nat)
    requires k <= |s| && forall j :: 0 <= j < |s| ==> (keep(s[j]) <==> j >= k)
    ensures Filter(s, keep) == s[k..]
  {
    if k == 0 {
      FilterAll(s, keep);
    } else {
      var tail := s[1..];
      forall j | 0 <= j < |tail| ensures keep(tail[j]) <==> j >= k - 1 {
        assert tail[j] == s[j + 1];
      }
      FilterSuffix(tail, keep, k - 1);
    }
  }

  lemma AfterIsLater<R>(t: Table<R>, where: Node, full: seq<R>, i: nat, j: nat)
    requires Keyed(t) && IsResult(t, where, full) && Sorted(t, full) && i < |full| && j < |full|
    ensures |t.mark(full[i])| == |t.cols|
    ensures Matches(After(t.cols, t.mark(full[i]), t.desc), t.view(full[j])) <==> j >= i + 1
  {
    AfterSplits(t, where, full, i, full[j]);
    LexAsymmetric(t.key(full[i]), t.key(full[j]), t.desc);
  }

  /** Of a sorted result, the rows after row i. */
  lemma RestOfResult<R>(t: Table<R>, where: Node, full: seq<R>, i: nat)
    requires Keyed(t) && IsResult(t, where, full) && i < |full|
    ensures |t.mark(full[i])| == |t.cols|
    ensures Filter(full, (r: R) => Matches(After(t.cols, t.mark(full[i]), t.desc), t.view(r))) == full[i + 1..]
  {
    ResultIsSorted(t, where, full);
    AfterIsLater(t, where, full, i, i);
    var keep := (r: R) => Matches(After(t.cols, t.mark(full[i]), t.desc), t.view(r));
    forall j | 0 <= j < |full| ensures keep(full[j]) <==> j >= i + 1 {
      AfterIsLater(t, where, full, i, j);
    }
    FilterSuffix(full, keep, i + 1);
  }

  lemma FilterMultiset<R>(a: seq<R>, b: seq<R>, keep: R -> bool)
    requires multiset(a) == multiset(b)
    ensures multiset(Filter(a, keep)) == multiset(Filter(b, keep))
  {
    var ma, mb := multiset(Filter(a, keep)), multiset(Filter(b, keep));
    forall x | x in ma + mb ensures ma[x] == mb[x] {
      FilterCounts(a, keep, x);
      FilterCounts(b, keep, x);
    }
  }

  /** now is the base predicate, alone or after some row of the table. */
  ghost predicate IsPosition<R>(t: Table<R>, where: Node, now: Node) {
    || now == where
    || exists i: nat :: StartsAfter(t, where, now, i)
  }

  predicate StartsAfter<R>(t: Table<R>, where: Node, now: Node, i: nat) {
    i < |t.rows| && |t.cols| == |t.mark(t.rows[i])| && now == AfterRow(t, where, t.rows[i])
  }

  lemma AfterMeans<R>(t: Table<R>, a: nat, b: nat)
    requires HasKeys(t) && a < |t.rows| && b < |t.rows|
    ensures |t.mark(t.rows[a])| == |t.cols|
    ensures Matches(After(t.cols, t.mark(t.rows[a]), t.desc), t.view(t.rows[b]))
            <==> LexAfter(t.key(t.rows[b]), t.key(t.rows[a]), t.desc)
  {
    assert RowsCompare(t, b, a);
    AfterIsLexicographic(t.cols, t.mark(t.rows[a]), t.desc, t.view(t.rows[b]), t.key(t.rows[b]), t.key(t.rows[a]));
  }

  /** A cursor after row i, moved on to a row that is after row i. */
  lemma CursorsCompose<R>(t: Table<R>, where: Node, i: nat, last: nat, b: nat)
    requires HasKeys(t) && i < |t.rows| && last < |t.rows| && b < |t.rows|
    requires |t.cols| == |t.mark(t.rows[i])| && Matches(AfterRow(t, where, t.rows[i]), t.view(t.rows[last]))
    ensures |t.cols| == |t.mark(t.rows[last])|
    ensures Matches(AfterRow(t, where, t.rows[last]), t.view(t.rows[b])) <==>
              && Matches(AfterRow(t, where, t.rows[i]), t.view(t.rows[b]))
              && Matches(After(t.cols, t.mark(t.rows[last]), t.desc), t.view(t.rows[b]))
  {
    AfterMeans(t, last, b);
    PositionMeans(t, where, last, b);
    PositionMeans(t, where, i, b);
    PositionMeans(t, where, i, last);
    LexTransitive(t.key(t.rows[b]), t.key(t.rows[last]), t.key(t.rows[i]), t.desc);
  }

  /** A later cursor on the base predicate is as good as one on top of the earlier cursor. */
  lemma LaterCursorImpliesEarlier<R>(t: Table<R>, where: Node, now: Node, last: nat, b: nat)
    requires HasKeys(t) && IsPosition(t, where, now) && last < |t.rows| && b < |t.rows|
    requires Matches(now, t.view(t.rows[last]))
    ensures |t.cols| == |t.mark(t.rows[last])|
    ensures Matches(AfterRow(t, where, t.rows[last]), t.view(t.rows[b])) <==>
              Matches(now, t.view(t.rows[b])) && Matches(After(t.cols, t.mark(t.rows[last]), t.desc), t.view(t.rows[b]))
  {
    AfterMeans(t, last, b);
    if now == where {
      AddWhereMatches(where, After(t.cols, t.mark(t.rows[last]), t.desc), t.view(t.rows[b]));
    } else {
      var i: nat :| StartsAfter(t, where, now, i);
      CursorsCompose(t, where, i, last, b);
    }
  }

  lemma PositionMeans<R>(t: Table<R>, where: Node, i: nat, b: nat)
    requires HasKeys(t) && i < |t.rows| && b < |t.rows|
    ensures |t.cols| == |t.mark(t.rows[i])|
    ensures Matches(AfterRow(t, where, t.rows[i]), t.view(t.rows[b])) <==>
              Matches(where, t.view(t.rows[b])) && LexAfter(t.key(t.rows[b]), t.key(t.rows[i]), t.desc)
  {
    AfterMeans(t, i, b);
    AddWhereMatches(where, After(t.cols, t.mark(t.rows[i]), t.desc), t.view(t.rows[b]));
  }

  /** The next statement selects what comes after row last among what this one selects. */
  lemma NextSelects<R>(t: Table<R>, where: Node, now: Node, last: nat)
    requires HasKeys(t) && IsPosition(t, where, now) && last < |t.rows| && Matches(now, t.view(t.rows[last]))
    ensures |t.cols| == |t.mark(t.rows[last])|
    ensures Select(t.rows, t.view, AfterRow(t, where, t.rows[last]))
            == Filter(Select(t.rows, t.view, now), (r: R) => Matches(After(t.cols, t.mark(t.rows[last]), t.desc), t.view(r)))
  {
    AfterMeans(t, last, last);
    var after := (r: R) => Matches(After(t.cols, t.mark(t.rows[last]), t.desc), t.view(r));
    var before := (r: R) => Matches(now, t.view(r));
    var both := (r: R) => before(r) && after(r);
    var next := (r: R) => Matches(AfterRow(t, where, t.rows[last]), t.view(r));
    forall b | 0 <= b < |t.rows| ensures both(t.rows[b]) == next(t.rows[b]) {
      LaterCursorImpliesEarlier(t, where, now, last, b);
    }
    FilterCongruent(t.rows, both, next);
    FilterTwice(t.rows, before, after);
    FilterCongruent(t.rows, both, (r: R) => before(r) && after(r));
  }

  /** The statement for the next page sees exactly the rows not yet read. */
  lemma NextPageSeesTheRest<R>(t: Table<R>, where: Node, now: Node, full: seq<R>, i: nat)
    requires Keyed(t) && IsPosition(t, where, now) && IsResult(t, now, full) && i < |full|
    ensures full[i] in t.rows && |t.cols| == |t.mark(full[i])|
    ensures multiset(Select(t.rows, t.view, AfterRow(t, where, full[i]))) == multiset(full[i + 1..])
    ensures IsPosition(t, where, AfterRow(t, where, full[i]))
  {
    ResultMembers(t, now, full, full[i]);
    var last :| 0 <= last < |t.rows| && t.rows[last] == full[i];
    NextSelects(t, where, now, last);
    FilterMultiset(full, Select(t.rows, t.view, now), (r: R) => Matches(After(t.cols, t.mark(full[i]), t.desc), t.view(r)));
    RestOfResult(t, now, full, i);
    assert StartsAfter(t, where, AfterRow(t, where, full[i]), last);
  }

  lemma OrderedJoin<R>(t: Table<R>, now: Node, full: seq<R>, n: nat, tail: seq<R>)
    requires Keyed(t) && IsResult(t, now, full) && n <= |full|
    requires multiset(tail) == multiset(full[n..]) && Ordered(t, tail)
    ensures IsResult(t, now, full[..n] + tail)
  {
    assert full == full[..n] + full[n..];
    var all := full[..n] + tail;
    forall i, j | 0 <= i < j < |all| ensures !OrderAfter(t.key(all[i]), t.key(all[j]), t.desc) {
      if i < n <= j {
        assert tail[j - n] in multiset(tail);
        assert tail[j - n] in full[n..];
        var k :| 0 <= k < |full| - n && full[n..][k] == tail[j - n];
        assert full[n + k] == all[j] && full[i] == all[i];
      } else if n <= i {
        assert all[i] == tail[i - n] && all[j] == tail[j - n];
      }
    }
  }

  /**
   * The pages of a whole run, one after the other, are the complete result:
   * no row is lost, none comes twice, and the order is that of ORDER BY.
   */
  lemma {:induction false} RunFromPosition<R>(t: Table<R>, where: Node, now: Node, n: nat, results: seq<seq<R>>)
    requires Keyed(t) && IsPosition(t, where, now) && IsRun(t, where, now, n, results)
    ensures IsResult(t, now, AllPages(results, n))
    decreases |results|
  {
    var full, rest := results[0], results[1..];
    if |full| < n {
      assert FirstRows(full, n) == full && AllPages(rest, n) == [];
    } else {
      FullPage(t, where, now, full, n);
      RunFromPosition(t, where, AfterRow(t, where, full[n - 1]), n, rest);
      RestCompletes(t, where, now, full, n, AllPages(rest, n));
    }
  }

  lemma FullPage<R>(t: Table<R>, where: Node, now: Node, full: seq<R>, n: nat)
    requires Keyed(t) && IsPosition(t, where, now) && IsResult(t, now, full) && 0 < n <= |full|
    ensures |t.cols| == |t.mark(full[n - 1])| && IsPosition(t, where, AfterRow(t, where, full[n - 1]))
  {
    NextPageSeesTheRest(t, where, now, full, n - 1);
  }

  lemma RestCompletes<R>(t: Table<R>, where: Node, now: Node, full: seq<R>, n: nat, tail: seq<R>)
    requires Keyed(t) && IsPosition(t, where, now) && IsResult(t, now, full) && 0 < n <= |full|
    requires |t.cols| == |t.mark(full[n - 1])| && IsResult(t, AfterRow(t, where, full[n - 1]), tail)
    ensures IsResult(t, now, full[..n] + tail)
  {
    NextPageSeesTheRest(t, where, now, full, n - 1);
    OrderedJoin(t, now, full, n, tail);
  }

  /** Two sorted arrangements of the same rows begin with the same row. */
  lemma SameHead<R>(t: Table<R>, a: seq<R>, b: seq<R>)
    requires multiset(a) == multiset(b) && Sorted(t, a) && Sorted(t, b) && a != [] && b != []
    ensures a[0] == b[0]
  {
    assert a[0] in multiset(a) && b[0] in multiset(b);
    var j :| 0 <= j < |b| && b[j] == a[0];
    var i :| 0 <= i < |a| && a[i] == b[0];
    LexAsymmetric(t.key(a[0]), t.key(a[i]), t.desc);
  }

  /** Two results of one statement are the same sequence. */
  lemma {:induction false} ResultIsUnique<R>(t: Table<R>, a: seq<R>, b: seq<R>)
    requires multiset(a) == multiset(b) && Sorted(t, a) && Sorted(t, b)
    ensures a == b
  {
    assert |a| == |multiset(a)| == |multiset(b)| == |b|;
    if a != [] {
      SameHead(t, a, b);
      assert a == [a[0]] + a[1..] && b == [b[0]] + b[1..];
      assert multiset(a[1..]) == multiset(a) - multiset{a[0]};
      assert multiset(b[1..]) == multiset(b) - multiset{b[0]};
      SortedTail(t, a);
      SortedTail(t, b);
      ResultIsUnique(t, a[1..], b[1..]);
    }
  }

  lemma SortedTail<R>(t: Table<R>, a: seq<R>)
    requires Sorted(t, a) && a != []
    ensures Sorted(t, a[1..])
  {
  }

  /** Paging through from the start gives the table: nothing lost, nothing twice, in order. */
  lemma PagesMakeTheTable<R>(t: Table<R>, where: Node, n: nat, results: seq<seq<R>>, sorted: seq<R>)
    requires Keyed(t) && IsRun(t, where, where, n, results) && IsResult(t, where, sorted)
    ensures AllPages(results, n) == sorted
  {
    RunFromPosition(t, where, where, n, results);
    ResultIsSorted(t, where, sorted);
    ResultIsSorted(t, where, AllPages(results, n));
    ResultIsUnique(t, sorted, AllPages(results, n));
  }

  // -------------------------------------------------------------- OffsetPage

  datatype PageError = PageOutOfRange(page: int) | SizeOutOfRange(size: int)

  const MAX_INT64: int := 0x7fff_ffff_ffff_ffff

  /** The value a product of two Go ints has. */
  function Wrap64(x: int): int {
    var low := x % 0x1_0000_0000_0000_0000;
    if low <= MAX_INT64 then low else low - 0x1_0000_0000_0000_0000
  }

  datatype Tail = Tail(limit: int, offset: int)

  function OffsetPage(page: int, size: int): (r: Result<Tail, PageError>)
    ensures r.Ok? <==> page >= 1 && size >= 1
    ensures r.Err? ==> r.error == if page < 1 then PageOutOfRange(page) else SizeOutOfRange(size)
    ensures r.Ok? ==> r.value.limit == size
  {
    if page < 1 then Err(PageOutOfRange(page))
    else if size < 1 then Err(SizeOutOfRange(size))
    else Ok(Tail(size, Wrap64((page - 1) * size)))
  }

  /** The rows that belong on a page. */
  function RowsOfPage<R>(rows: seq<R>, page: int, size: int): seq<R>
    requires page >= 1 && size >= 1
  {
    var from := (page - 1) * size;
    if from >= |rows| then [] else rows[from..Min(from + size, |rows|)]
  }

  /** Right for every result exactly while the offset fits into an int. */
  lemma OffsetPageIsRight(page: int, size: int)
    requires 1 <= page <= MAX_INT64 && 1 <= size <= MAX_INT64
    ensures OffsetPage(page, size).Ok?
    ensures (forall rows: seq<int> :: Page(rows, OffsetPage(page, size).value.limit, OffsetPage(page, size).value.offset)
                                      == RowsOfPage(rows, page, size))
            <==> (page - 1) * size <= MAX_INT64
  {
    var from, tail := (page - 1) * size, OffsetPage(page, size).value;
    assert from >= 0;
    if from <= MAX_INT64 {
      forall rows: seq<int> ensures Page(rows, tail.limit, tail.offset) == RowsOfPage(rows, page, size) {
        PageIsSlice(rows, from, size);
      }
    } else {
      var rows := seq(if tail.offset <= 0 then 1 else tail.offset + 1, _ => 0);
      assert |rows| <= MAX_INT64 + 1;
      assert Page(rows, tail.limit, tail.offset) != [];
      assert RowsOfPage(rows, page, size) == [];
    }
  }

  lemma PageIsSlice<R>(rows: seq<R>, from: int, size: int)
    requires from >= 0 && size >= 1
    ensures Page(rows, size, from) == if from >= |rows| then [] else rows[from..Min(from + size, |rows|)]
  {
  }

  /** Pages 1 to n, as OffsetPage numbers them. */
  function FirstPages<R>(rows: seq<R>, size: int, n: nat): seq<seq<R>>
    requires size >= 1
  {
    if n == 0 then [] else FirstPages(rows, size, n - 1) + [RowsOfPage(rows, n, size)]
  }

  /** The first pages together are the first rows. */
  lemma {:induction false} OffsetPagesTile<R>(rows: seq<R>, size: int, n: nat)
    requires size >= 1
    ensures 0 <= n * size
    ensures Concat(FirstPages(rows, size, n)) == rows[..Min(n * size, |rows|)]
  {
    if n > 0 {
      OffsetPagesTile(rows, size, n - 1);
      ConcatAppend(FirstPages(rows, size, n - 1), RowsOfPage(rows, n, size));
      NextRows(rows, (n - 1) * size, size);
    }
  }

  lemma NextRows<R>(rows: seq<R>, from: nat, size: nat)
    ensures rows[..Min(from, |rows|)] + (if from >= |rows| then [] else rows[from..Min(from + size, |rows|)])
            == rows[..Min(from + size, |rows|)]
  {
  }
}
