/**
 * The IN-list fan-out of orm/inchunks.go: a predicate whose bound arguments
 * exceed the per-statement budget becomes several predicates that fit, or
 * planning fails closed. Replacing a list follows the path to it, as the
 * comment on replaceInValues describes; InChunksAsWritten models the pointer
 * comparison the code performs instead.
 */
module InChunks {
  import opened Basics
  import opened Predicates

  datatype PlanError = InListTooLarge

  type Path = seq<nat>

  // ---------------------------------------------------------------- counting

  function CountArgs(n: Node): nat
    decreases n, 0
  {
    match n
    case Binary(_, op, _) => if op == IsNull || op == IsNotNull then 0 else 1
    case InList(_, _, values) => |values|
    case Between(_, _, _) => 2
    case Like(_, _) => 1
    case Compound(op, children) =>
      if op == CNot then (if |children| == 1 then CountArgs(children[0]) else 0)
      else CountAll(children)
    case _ => 0
  }

  function CountAll(ns: seq<Node>): nat
    decreases ns, 1
  {
    if ns == [] then 0 else CountArgs(ns[0]) + CountAll(ns[1..])
  }

  /** The count is that of the placeholders. */
  lemma {:induction false} CountsWhatIsBound(n: Node)
    ensures CountArgs(n) == |Bound(n)|
    decreases n, 0
  {
    if n.Compound? {
      if n.compound == CNot && |n.children| == 1 {
        CountsWhatIsBound(n.children[0]);
        assert BoundAll(n.children[1..]) == [];
      } else if n.compound != CNot {
        CountsAllBound(n.children);
      }
    }
  }

  lemma {:induction false} CountsAllBound(ns: seq<Node>)
    ensures CountAll(ns) == |BoundAll(ns)|
    decreases ns, 1
  {
    if ns != [] {
      CountsWhatIsBound(ns[0]);
      CountsAllBound(ns[1..]);
    }
  }

  lemma {:induction false} CountAllUpdate(ns: seq<Node>, i: nat, n: Node)
    requires i < |ns|
    ensures CountAll(ns[i := n]) == CountAll(ns) - CountArgs(ns[i]) + CountArgs(n)
  {
    if i == 0 {
      assert ns[0 := n][1..] == ns[1..];
    } else {
      assert ns[i := n][1..] == ns[1..][i - 1 := n];
      CountAllUpdate(ns[1..], i - 1, n);
    }
  }

  lemma {:induction false} CountAllAtLeast(ns: seq<Node>, i: nat)
    requires i < |ns|
    ensures CountAll(ns) >= CountArgs(ns[i])
  {
    if i > 0 {
      CountAllAtLeast(ns[1..], i - 1);
    }
  }

  // ---------------------------------------------------- chunkable IN lists

  /** path leads from n, through AND nodes only, to a value-list IN. */
  predicate Chunkable(n: Node, path: Path) {
    if path == [] then n.InList? && !n.negated
    else
      && n.Compound? && n.compound == CAnd
      && path[0] < |n.children|
      && Chunkable(n.children[path[0]], path[1..])
  }

  function ListAt(n: Node, path: Path): (r: Node)
    requires Chunkable(n, path)
    ensures r.InList? && !r.negated
  {
    if path == [] then n else ListAt(n.children[path[0]], path[1..])
  }

  /** n with the value list at path swapped for chunk and nothing else changed. */
  function ReplaceAt(n: Node, path: Path, chunk: seq<Value>): Node
    requires Chunkable(n, path)
  {
    if path == [] then n.(values := chunk)
    else n.(children := n.children[path[0] := ReplaceAt(n.children[path[0]], path[1..], chunk)])
  }

  lemma {:induction false} ReplaceAtCount(n: Node, path: Path, chunk: seq<Value>)
    requires Chunkable(n, path)
    ensures CountArgs(n) >= |ListAt(n, path).values|
    ensures CountArgs(ReplaceAt(n, path, chunk)) == CountArgs(n) - |ListAt(n, path).values| + |chunk|
  {
    if path != [] {
      var i, rest := path[0], path[1..];
      ReplaceAtCount(n.children[i], rest, chunk);
      CountAllAtLeast(n.children, i);
      CountAllUpdate(n.children, i, ReplaceAt(n.children[i], rest, chunk));
    }
  }

  // ------------------------------------------------------- largestChunkableIn

  datatype Found = Found(path: Path, size: nat)

  /** The earlier candidate wins ties. */
  function Prefer(best: Option<Found>, next: Option<Found>): Option<Found> {
    if next.Some? && (best.None? || next.value.size > best.value.size) then next else best
  }

  function Under(i: nat, f: Option<Found>): Option<Found> {
    match f
    case None => None
    case Some(Found(path, size)) => Some(Found([i] + path, size))
  }

  /** The first of the longest chunkable IN lists, in depth-first order. */
  function Largest(n: Node): Option<Found>
    decreases n, 0
  {
    match n
    case InList(_, negated, values) => if negated then None else Some(Found([], |values|))
    case Compound(op, children) => if op == CAnd then LargestAmong(children, |children|) else None
    case _ => None
  }

  function LargestAmong(ns: seq<Node>, k: nat): Option<Found>
    requires k <= |ns|
    decreases ns, 1, k
  {
    if k == 0 then None
    else Prefer(LargestAmong(ns, k - 1), Under(k - 1, Largest(ns[k - 1])))
  }

  lemma {:induction false} LargestIsChunkable(n: Node)
    ensures Largest(n).Some? ==>
              && Chunkable(n, Largest(n).value.path)
              && |ListAt(n, Largest(n).value.path).values| == Largest(n).value.size
    decreases n, 0
  {
    if n.Compound? && n.compound == CAnd {
      LargestAmongIsChunkable(n, |n.children|);
    }
  }

  lemma {:induction false} LargestAmongIsChunkable(n: Node, k: nat)
    requires n.Compound? && n.compound == CAnd && k <= |n.children|
    ensures var f := LargestAmong(n.children, k);
            f.Some? ==>
              && Chunkable(n, f.value.path)
              && |ListAt(n, f.value.path).values| == f.value.size
    decreases n.children, 1, k
  {
    if k > 0 {
      LargestAmongIsChunkable(n, k - 1);
      LargestIsChunkable(n.children[k - 1]);
      var f := Largest(n.children[k - 1]);
      if f.Some? {
        assert ([k - 1] + f.value.path)[1..] == f.value.path;
      }
    }
  }

  /** No chunkable list is longer than the one found. */
  lemma {:induction false} LargestIsLongest(n: Node, path: Path)
    requires Chunkable(n, path)
    ensures Largest(n).Some? && Largest(n).value.size >= |ListAt(n, path).values|
  {
    if path != [] {
      LargestIsLongest(n.children[path[0]], path[1..]);
      LargestAmongGrows(n.children, path[0] + 1, |n.children|);
    }
  }

  lemma {:induction false} LargestAmongGrows(ns: seq<Node>, j: nat, k: nat)
    requires j <= k <= |ns|
    ensures LargestAmong(ns, j).Some? ==>
              && LargestAmong(ns, k).Some?
              && LargestAmong(ns, k).value.size >= LargestAmong(ns, j).value.size
    decreases k
  {
    if j < k {
      LargestAmongGrows(ns, j, k - 1);
    }
  }

  /** Met earlier on a depth-first walk. */
  predicate Earlier(p: Path, q: Path) {
    p != [] && q != [] && (p[0] < q[0] || (p[0] == q[0] && Earlier(p[1..], q[1..])))
  }

  /** What is found is found under one child, and nothing as long under the children before it. */
  lemma {:induction false} FoundUnder(ns: seq<Node>, k: nat)
    requires k <= |ns| && LargestAmong(ns, k).Some?
    ensures var f := LargestAmong(ns, k).value;
            && f.path != [] && f.path[0] < k && Largest(ns[f.path[0]]) == Some(Found(f.path[1..], f.size))
            && forall j :: 0 <= j < f.path[0] && Largest(ns[j]).Some? ==> Largest(ns[j]).value.size < f.size
    decreases k
  {
    var before, here := LargestAmong(ns, k - 1), Largest(ns[k - 1]);
    if before.Some? {
      FoundUnder(ns, k - 1);
    }
    if here.Some? && (before.None? || here.value.size > before.value.size) {
      assert ([k - 1] + here.value.path)[1..] == here.value.path;
      forall j | 0 <= j < k - 1 && Largest(ns[j]).Some? ensures Largest(ns[j]).value.size < here.value.size {
        AmongAtLeast(ns, k - 1, j);
      }
    }
  }

  lemma {:induction false} AmongAtLeast(ns: seq<Node>, k: nat, j: nat)
    requires j < k <= |ns| && Largest(ns[j]).Some?
    ensures LargestAmong(ns, k).Some? && LargestAmong(ns, k).value.size >= Largest(ns[j]).value.size
    decreases k
  {
    if j < k - 1 {
      AmongAtLeast(ns, k - 1, j);
    }
  }

  /** Of the longest lists the one found is the first. */
  lemma {:induction false} LargestIsFirst(n: Node, path: Path)
    requires Chunkable(n, path) && Largest(n).Some? && |ListAt(n, path).values| == Largest(n).value.size
    ensures path == Largest(n).value.path || Earlier(Largest(n).value.path, path)
  {
    if path != [] {
      var i, f := path[0], Largest(n).value;
      FoundUnder(n.children, |n.children|);
      LargestIsLongest(n.children[i], path[1..]);
      if f.path[0] == i {
        LargestIsFirst(n.children[i], path[1..]);
        assert path == [i] + path[1..] && f.path == [i] + f.path[1..];
      }
    }
  }

  function Prefixed(here: Path, f: Option<Found>): Option<Found> {
    match f
    case None => None
    case Some(Found(path, size)) => Some(Found(here + path, size))
  }

  /** The recursive walk, which updates the best candidate as it goes. */
  method WalkLargest(n: Node, chunkable: bool, here: Path, best: Option<Found>) returns (b: Option<Found>)
    ensures b == if chunkable then Prefer(best, Prefixed(here, Largest(n))) else best
    decreases n
  {
    b := best;
    if n.InList? && !n.negated && chunkable {
      assert here + [] == here;
      if best.None? || |n.values| > best.value.size {
        b := Some(Found(here, |n.values|));
      }
    }
    if n.Compound? {
      var inner := chunkable && n.compound == CAnd;
      for i := 0 to |n.children|
        invariant b == if inner then Prefer(best, Prefixed(here, LargestAmong(n.children, i))) else best
      {
        b := WalkLargest(n.children[i], inner, here + [i], b);
        if inner && Largest(n.children[i]).Some? {
          var p := Largest(n.children[i]).value.path;
          assert here + [i] + p == here + ([i] + p);
        }
      }
    }
  }

  // -------------------------------------------------- oversizedUnchunkableIn

  /** Some value-list IN longer than budget sits where it cannot be split. */
  predicate OversizedUnchunkable(n: Node, budget: int, chunkable: bool) {
    match n
    case InList(_, negated, values) => |values| > budget && (!chunkable || negated)
    case Compound(op, children) =>
      exists i :: 0 <= i < |children| && OversizedUnchunkable(children[i], budget, chunkable && op == CAnd)
    case _ => false
  }

  method WalkOversized(n: Node, budget: int, chunkable: bool, found: bool) returns (f: bool)
    ensures f == (found || OversizedUnchunkable(n, budget, chunkable))
    decreases n
  {
    f := found;
    if n.Compound? {
      for i := 0 to |n.children|
        invariant f == (found || exists j :: 0 <= j < i && OversizedUnchunkable(n.children[j], budget, chunkable && n.compound == CAnd))
      {
        f := WalkOversized(n.children[i], budget, chunkable && n.compound == CAnd, f);
      }
      return;
    }
    if !n.InList? || found || |n.values| <= budget {
      return;
    }
    if !chunkable || n.negated {
      f := true;
    }
  }

  // ------------------------------------------------------------ deduplication

  function DedupeValues(vs: seq<Value>): seq<Value> {
    if vs == [] then []
    else
      var before, v := vs[..|vs| - 1], vs[|vs| - 1];
      if exists w :: w in before && GoEqual(w, v) then DedupeValues(before)
      else DedupeValues(before) + [v]
  }

  method DedupeLoop(vs: seq<Value>) returns (out: seq<Value>)
    ensures out == DedupeValues(vs)
  {
    var seen: set<Value> := {};
    out := [];
    for i := 0 to |vs|
      invariant seen <= set v | v in vs[..i]
      invariant forall v :: v in vs[..i] && !v.Unhashable? ==> v in seen || exists w :: w in seen && GoEqual(w, v)
      invariant out == DedupeValues(vs[..i])
    {
      var v := vs[i];
      assert vs[..i + 1][..|vs[..i + 1]| - 1] == vs[..i];
      if v.Unhashable? {
        out := out + [v];
      } else if exists w :: w in seen && GoEqual(w, v) {
        var w :| w in seen && GoEqual(w, v);
        assert w in vs[..i];
      } else {
        forall w | w in vs[..i] ensures !GoEqual(w, v) {
          if w !in seen && !w.Unhashable? {
            var u :| u in seen && GoEqual(u, w);
          }
        }
        seen := seen + {v};
        out := out + [v];
      }
    }
    assert vs[..|vs|] == vs;
  }

  predicate PairwiseUnequal(vs: seq<Value>) {
    forall i, j :: 0 <= i < j < |vs| ==> !GoEqual(vs[i], vs[j])
  }

  /**
   * Nothing is invented, every value keeps an equal representative, and no two
   * survivors are equal.
   */
  lemma {:induction false} DedupeValuesMembers(vs: seq<Value>)
    ensures forall v :: v in DedupeValues(vs) ==> v in vs
    ensures forall v :: v in vs ==> v in DedupeValues(vs) || exists w :: w in DedupeValues(vs) && GoEqual(w, v)
    ensures PairwiseUnequal(DedupeValues(vs))
  {
    if vs != [] {
      var before, v := vs[..|vs| - 1], vs[|vs| - 1];
      DedupeValuesMembers(before);
      assert vs == before + [v];
      if w :| w in before && GoEqual(w, v) {
        assert w in DedupeValues(before) || exists u :: u in DedupeValues(before) && GoEqual(u, w);
      } else {
        assert forall w :: w in DedupeValues(before) ==> !GoEqual(w, v);
      }
    }
  }

  /** The first occurrence wins and order is kept: later input only appends. */
  lemma {:induction false} DedupeValuesPrefix(vs: seq<Value>, more: seq<Value>)
    ensures DedupeValues(vs) <= DedupeValues(vs + more)
  {
    if more == [] {
      assert vs + more == vs;
    } else {
      DedupeValuesPrefix(vs, more[..|more| - 1]);
      assert (vs + more)[..|vs + more| - 1] == vs + more[..|more| - 1];
    }
  }

  function DedupeIns(n: Node, chunkable: bool): Node {
    match n
    case InList(_, negated, values) =>
      if !negated && chunkable then n.(values := DedupeValues(values)) else n
    case Compound(op, children) =>
      var inner := chunkable && op == CAnd;
      n.(children := seq(|children|, i requires 0 <= i < |children| => DedupeIns(children[i], inner)))
    case _ => n
  }

  /** Off the AND path a tree is returned as it is. */
  lemma {:induction false} DedupeOffPath(n: Node)
    ensures DedupeIns(n, false) == n
  {
    if n.Compound? {
      forall i | 0 <= i < |n.children| ensures DedupeIns(n.children[i], false) == n.children[i] {
        DedupeOffPath(n.children[i]);
      }
      assert DedupeIns(n, false).children == n.children;
    }
  }

  /** The tree without the values of the lists that can be split. */
  function Blank(n: Node, chunkable: bool): Node {
    match n
    case InList(column, negated, values) => if chunkable && !negated then InList(column, false, []) else n
    case Compound(op, children) =>
      Compound(op, seq(|children|, i requires 0 <= i < |children| => Blank(children[i], chunkable && op == CAnd)))
    case _ => n
  }

  /** Deduplication changes nothing else. */
  lemma {:induction false} DedupeChangesListsOnly(n: Node, chunkable: bool)
    ensures Blank(DedupeIns(n, chunkable), chunkable) == Blank(n, chunkable)
  {
    if n.Compound? {
      var inner := chunkable && n.compound == CAnd;
      var before, after := Blank(n, chunkable), Blank(DedupeIns(n, chunkable), chunkable);
      forall i | 0 <= i < |n.children| ensures after.children[i] == before.children[i] {
        DedupeChangesListsOnly(n.children[i], inner);
      }
      assert after.children == before.children;
    }
  }

  /** Deduplication neither adds nor removes positions that can be split. */
  lemma {:induction false} DedupeChunkable(n: Node, path: Path)
    ensures Chunkable(DedupeIns(n, true), path) <==> Chunkable(n, path)
    ensures Chunkable(n, path) ==>
              && ListAt(DedupeIns(n, true), path).column == ListAt(n, path).column
              && ListAt(DedupeIns(n, true), path).values == DedupeValues(ListAt(n, path).values)
    decreases path
  {
    if path != [] && n.Compound? && n.compound == CAnd && path[0] < |n.children| {
      DedupeChunkable(n.children[path[0]], path[1..]);
    }
  }

  /** SQL comparison cannot tell Go-equal values apart. */
  ghost predicate RespectsGoEquality(row: Row) {
    forall column, v, w :: GoEqual(v, w) ==> row.eq(column, v) == row.eq(column, w)
  }

  lemma Representative(vs: seq<Value>, v: Value, row: Row, column: string) returns (w: Value)
    requires RespectsGoEquality(row) && v in vs
    ensures w in DedupeValues(vs) && row.eq(column, w) == row.eq(column, v)
  {
    DedupeValuesMembers(vs);
    if v in DedupeValues(vs) {
      w := v;
    } else {
      w :| w in DedupeValues(vs) && GoEqual(w, v);
    }
  }

  lemma DedupeValuesTruth(row: Row, column: string, vs: seq<Value>)
    requires RespectsGoEquality(row)
    ensures InTruth(row, column, DedupeValues(vs)) == InTruth(row, column, vs)
  {
    var ds := DedupeValues(vs);
    forall v | v in ds ensures v in vs {
      DedupeValuesMembers(vs);
    }
    InTruthByMembers(row, column, vs);
    InTruthByMembers(row, column, ds);
    if v :| v in vs && row.eq(column, v) == True {
      var w := Representative(vs, v, row, column);
    }
    if v :| v in vs && row.eq(column, v) != False {
      var w := Representative(vs, v, row, column);
    }
  }

  /** Deduplication keeps all three truth values, not just TRUE. */
  lemma {:induction false} DedupeKeepsMeaning(n: Node, chunkable: bool, row: Row)
    requires RespectsGoEquality(row)
    ensures Eval(DedupeIns(n, chunkable), row) == Eval(n, row)
  {
    match n
    case InList(column, negated, values) =>
      DedupeValuesTruth(row, column, values);
      DedupeValuesMembers(values);
      if values != [] {
        assert values[0] in values;
      }
    case Compound(op, children) =>
      if op == CAnd {
        forall i | 0 <= i < |children|
          ensures Eval(DedupeIns(children[i], chunkable), row) == Eval(children[i], row)
        {
          DedupeKeepsMeaning(children[i], chunkable, row);
        }
        EvalAllCongruent(DedupeIns(n, chunkable).children, children, row);
      } else {
        DedupeOffPath(n);
        assert DedupeIns(n, chunkable) == DedupeIns(n, false);
      }
    case _ =>
  }

  // ------------------------------------------------------------------ chunks

  function Chunks(vals: seq<Value>, size: nat): (r: seq<seq<Value>>)
    requires size > 0
    ensures |r| > 0
  {
    if |vals| <= size then [vals] else [vals[..size]] + Chunks(vals[size..], size)
  }

  lemma {:induction false} ChunksAreShort(vals: seq<Value>, size: nat)
    requires size > 0
    ensures forall c :: c in Chunks(vals, size) ==> |c| <= size
    decreases |vals|
  {
    if |vals| > size {
      ChunksAreShort(vals[size..], size);
    }
  }

  function ReplaceEach(n: Node, path: Path, chunks: seq<seq<Value>>): seq<Node>
    requires Chunkable(n, path)
  {
    seq(|chunks|, i requires 0 <= i < |chunks| => ReplaceAt(n, path, chunks[i]))
  }

  // --------------------------------------------------------------- planning

  /** One level of splitting: the largest list cut to what the rest leaves free. */
  function Split(where: Node, budget: int): Result<seq<Node>, PlanError> {
    if CountArgs(where) <= budget then Ok([where])
    else
      var target := Largest(where);
      if target.None? then Err(InListTooLarge)
      else
        LargestIsChunkable(where);
        var path := target.value.path;
        var room := budget - (CountArgs(where) - target.value.size);
        if room < 1 then Err(InListTooLarge)
        else Ok(ReplaceEach(where, path, Chunks(ListAt(where, path).values, room)))
  }

  function Plan(where: Node, budget: int): Result<seq<Node>, PlanError> {
    if budget < 1 then Err(InListTooLarge)
    else if CountArgs(where) <= budget then Ok([where])
    else if OversizedUnchunkable(where, budget, true) then Err(InListTooLarge)
    else Split(DedupeIns(where, true), budget)
  }

  /** The pieces still to come when the loop of splitWhere is at start. */
  ghost function Pieces(n: Node, path: Path, vals: seq<Value>, start: nat, size: nat): seq<Node>
    requires Chunkable(n, path) && size > 0
  {
    if start >= |vals| then [] else ReplaceEach(n, path, Chunks(vals[start..], size))
  }

  /** out and the pieces still to come make up all. */
  ghost predicate Remaining(out: seq<Node>, n: Node, path: Path, vals: seq<Value>, start: nat, size: nat, all: seq<Node>)
    requires Chunkable(n, path) && size > 0
  {
    all == out + Pieces(n, path, vals, start, size)
  }

  lemma ReplaceEachCons(n: Node, path: Path, chunk: seq<Value>, chunks: seq<seq<Value>>)
    requires Chunkable(n, path)
    ensures ReplaceEach(n, path, [chunk] + chunks) == [ReplaceAt(n, path, chunk)] + ReplaceEach(n, path, chunks)
  {
    assert [chunk] + chunks != [];
  }

  lemma PiecesStep(n: Node, path: Path, vals: seq<Value>, start: nat, end: nat, size: nat)
    requires Chunkable(n, path) && size > 0 && start < |vals| && end == Min(start + size, |vals|)
    ensures Pieces(n, path, vals, start, size)
            == [ReplaceAt(n, path, vals[start..end])] + Pieces(n, path, vals, start + size, size)
  {
    var rest := vals[start..];
    if |rest| <= size {
      assert rest == vals[start..end];
      ReplaceEachCons(n, path, rest, []);
    } else {
      assert rest[..size] == vals[start..end] && rest[size..] == vals[start + size..];
      ReplaceEachCons(n, path, rest[..size], Chunks(rest[size..], size));
    }
  }

  lemma AppendAssociates(out: seq<Node>, n: Node, rest: seq<Node>)
    ensures out + ([n] + rest) == (out + [n]) + rest
  {
  }

  lemma RemainingStep(
    out: seq<Node>, n: Node, path: Path, vals: seq<Value>, start: nat, end: nat, size: nat, all: seq<Node>)
    requires Chunkable(n, path) && size > 0 && start < |vals| && end == Min(start + size, |vals|)
    requires Remaining(out, n, path, vals, start, size, all)
    ensures Remaining(out + [ReplaceAt(n, path, vals[start..end])], n, path, vals, start + size, size, all)
  {
    PiecesStep(n, path, vals, start, end, size);
    AppendAssociates(out, ReplaceAt(n, path, vals[start..end]), Pieces(n, path, vals, start + size, size));
  }

  lemma SplitIsPieces(where: Node, budget: int)
    requires CountArgs(where) > budget && Largest(where).Some?
    requires budget - (CountArgs(where) - Largest(where).value.size) >= 1
    ensures var path := Largest(where).value.path;
            && Chunkable(where, path)
            && var vals := ListAt(where, path).values;
               Split(where, budget)
               == Ok(Pieces(where, path, vals, 0, budget - (CountArgs(where) - Largest(where).value.size)))
  {
    LargestIsChunkable(where);
    var vals := ListAt(where, Largest(where).value.path).values;
    ReplaceAtCount(where, Largest(where).value.path, []);
    assert vals[0..] == vals;
  }

  lemma PieceFits(n: Node, path: Path, chunk: seq<Value>, budget: int)
    requires Chunkable(n, path)
    requires |chunk| <= budget - (CountArgs(n) - |ListAt(n, path).values|)
    ensures CountArgs(ReplaceAt(n, path, chunk)) <= budget
    ensures Split(ReplaceAt(n, path, chunk), budget) == Ok([ReplaceAt(n, path, chunk)])
  {
    ReplaceAtCount(n, path, chunk);
  }

  lemma LargestFromRoot(n: Node)
    ensures Prefer(None, Prefixed([], Largest(n))) == Largest(n)
    ensures Largest(n).Some? ==>
              && Chunkable(n, Largest(n).value.path)
              && |ListAt(n, Largest(n).value.path).values| == Largest(n).value.size
  {
    LargestIsChunkable(n);
    if Largest(n).Some? {
      assert [] + Largest(n).value.path == Largest(n).value.path;
    }
  }

  /**
   * splitWhere recurses on every piece. Each piece already fits, so the
   * recursion never goes past one level and the guard against a list no longer
   * than its chunk never fires.
   */
  method SplitWhere(where: Node, budget: int) returns (r: Result<seq<Node>, PlanError>)
    ensures r == Split(where, budget)
    decreases CountArgs(where)
  {
    if CountArgs(where) <= budget {
      return Ok([where]);
    }
    var target := WalkLargest(where, true, [], None);
    LargestFromRoot(where);
    if target.None? {
      return Err(InListTooLarge);
    }
    var path := target.value.path;
    var vals := ListAt(where, path).values;
    ReplaceAtCount(where, path, []);
    var others := CountArgs(where) - |vals|;
    var chunkSize := budget - others;
    assert |vals| > chunkSize;
    if chunkSize < 1 || |vals| <= chunkSize {
      return Err(InListTooLarge);
    }
    ghost var all := Pieces(where, path, vals, 0, chunkSize);
    assert Split(where, budget) == Ok(all) by {
      SplitIsPieces(where, budget);
    }

    var out: seq<Node> := [];
    var start := 0;
    while start < |vals|
      invariant 0 <= start
      invariant Remaining(out, where, path, vals, start, chunkSize, all)
    {
      var end := start + chunkSize;
      if end > |vals| {
        end := |vals|;
      }
      var piece := ReplaceAt(where, path, vals[start..end]);
      PieceFits(where, path, vals[start..end], budget);
      var sub := SplitWhere(piece, budget);
      if sub.Err? {
        return sub;
      }
      RemainingStep(out, where, path, vals, start, end, chunkSize, all);
      out := out + sub.value;
      start := start + chunkSize;
    }
    assert out + [] == out;
    r := Ok(out);
  }

  method PlanInChunks(where: Node, budget: int) returns (r: Result<seq<Node>, PlanError>)
    ensures r == Plan(where, budget)
  {
    if budget < 1 {
      return Err(InListTooLarge);
    }
    if CountArgs(where) <= budget {
      return Ok([where]);
    }
    var oversized := WalkOversized(where, budget, true, false);
    if oversized {
      return Err(InListTooLarge);
    }
    var deduped := DedupeIns(where, true);
    if CountArgs(deduped) <= budget {
      return Ok([deduped]);
    }
    r := SplitWhere(deduped, budget);
  }

  // ------------------------------------------------- budget and success

  /** Every planned statement fits the budget. */
  lemma PlansFitBudget(where: Node, budget: int)
    requires Plan(where, budget).Ok?
    ensures Plan(where, budget).value != []
    ensures forall p :: p in Plan(where, budget).value ==> CountArgs(p) <= budget
  {
    var tree := if CountArgs(where) <= budget then where else DedupeIns(where, true);
    if CountArgs(tree) > budget {
      LargestIsChunkable(tree);
      var path := Largest(tree).value.path;
      var vals := ListAt(tree, path).values;
      var room := budget - (CountArgs(tree) - |vals|);
      var plans := Plan(where, budget).value;
      ChunksAreShort(vals, room);
      forall p | p in plans ensures CountArgs(p) <= budget {
        var i :| 0 <= i < |plans| && plans[i] == p;
        ReplaceAtCount(tree, path, Chunks(vals, room)[i]);
        assert Chunks(vals, room)[i] in Chunks(vals, room);
      }
    }
  }

  /** Chunks cut a list without losing or moving anything; all but the last are as long as they may be. */
  lemma {:induction false} ChunksAreFull(vals: seq<Value>, size: nat)
    requires size > 0
    ensures var chunks := Chunks(vals, size);
            && Concat(chunks) == vals && (vals != [] ==> chunks[|chunks| - 1] != [])
            && forall i :: 0 <= i < |chunks| - 1 ==> |chunks[i]| == size
    decreases |vals|
  {
    var chunks := Chunks(vals, size);
    if |vals| > size {
      var rest := Chunks(vals[size..], size);
      ChunksAreFull(vals[size..], size);
      assert chunks[1..] == rest && vals == vals[..size] + vals[size..];
      forall i | 0 <= i < |chunks| - 1 ensures |chunks[i]| == size {
        assert i > 0 ==> chunks[i] == rest[i - 1];
      }
    } else {
      assert chunks[1..] == [];
    }
  }

  /** No statement could take more: all planned ones but the last use up the budget. */
  lemma PlansFillBudget(where: Node, budget: int)
    requires Plan(where, budget).Ok?
    ensures var plans := Plan(where, budget).value; forall i :: 0 <= i < |plans| - 1 ==> CountArgs(plans[i]) == budget
  {
    var tree := if CountArgs(where) <= budget then where else DedupeIns(where, true);
    if CountArgs(tree) > budget {
      LargestIsChunkable(tree);
      var path := Largest(tree).value.path;
      var vals := ListAt(tree, path).values;
      var room := budget - (CountArgs(tree) - |vals|);
      var plans := Plan(where, budget).value;
      ChunksAreFull(vals, room);
      forall i | 0 <= i < |plans| - 1 ensures CountArgs(plans[i]) == budget {
        ReplaceAtCount(tree, path, Chunks(vals, room)[i]);
      }
    }
  }

  /** Some chunkable list leaves the other arguments below the budget. */
  ghost predicate LeavesRoom(n: Node, budget: int) {
    exists path :: Chunkable(n, path) && CountArgs(n) - |ListAt(n, path).values| < budget
  }

  /** Exactly when planning succeeds. */
  lemma PlanSucceeds(where: Node, budget: int)
    ensures Plan(where, budget).Ok? <==>
              && budget >= 1
              && (|| CountArgs(where) <= budget
                  || (&& !OversizedUnchunkable(where, budget, true)
                      && (|| CountArgs(DedupeIns(where, true)) <= budget
                          || LeavesRoom(DedupeIns(where, true), budget))))
  {
    var tree := DedupeIns(where, true);
    LargestIsChunkable(tree);
    if LeavesRoom(tree, budget) {
      var path :| Chunkable(tree, path) && CountArgs(tree) - |ListAt(tree, path).values| < budget;
      LargestIsLongest(tree, path);
    }
  }

  /** A single statement will do, with or without the repeated values. */
  predicate FitsOne(where: Node, budget: int) {
    CountArgs(where) <= budget || CountArgs(DedupeIns(where, true)) <= budget
  }

  /** The plan is a single statement exactly when nothing has to be cut. */
  lemma SinglePlan(where: Node, budget: int)
    requires Plan(where, budget).Ok?
    ensures |Plan(where, budget).value| == 1 <==> FitsOne(where, budget)
  {
    var tree := DedupeIns(where, true);
    if !FitsOne(where, budget) {
      LargestIsChunkable(tree);
    }
  }

  /** Every NOT in the tree has its one operand, as Not builds it. */
  predicate UnaryNots(n: Node) {
    n.Compound? ==>
      && (n.compound == CNot ==> |n.children| == 1)
      && forall i :: 0 <= i < |n.children| ==> UnaryNots(n.children[i])
  }

  lemma {:induction false} CountAllAtLeastTwo(ns: seq<Node>, i: nat, j: nat)
    requires i < |ns| && j < |ns| && i != j
    ensures CountAll(ns) >= CountArgs(ns[i]) + CountArgs(ns[j])
    decreases i + j
  {
    if i == 0 {
      CountAllAtLeast(ns[1..], j - 1);
    } else if j == 0 {
      CountAllAtLeast(ns[1..], i - 1);
    } else {
      CountAllAtLeastTwo(ns[1..], i - 1, j - 1);
    }
  }

  lemma {:induction false} OversizedCounts(n: Node, budget: int, chunkable: bool)
    requires budget >= 0 && UnaryNots(n) && OversizedUnchunkable(n, budget, chunkable)
    ensures CountArgs(n) > budget
    ensures chunkable ==> CountArgs(DedupeIns(n, true)) > budget
    ensures chunkable ==>
      forall path :: Chunkable(DedupeIns(n, true), path)
        ==> CountArgs(DedupeIns(n, true)) - |ListAt(DedupeIns(n, true), path).values| > budget
  {
    if n.Compound? {
      var inner := chunkable && n.compound == CAnd;
      var i :| 0 <= i < |n.children| && OversizedUnchunkable(n.children[i], budget, inner);
      OversizedCounts(n.children[i], budget, inner);
      if n.compound != CNot {
        CountAllAtLeast(n.children, i);
      }
      if chunkable {
        var d := DedupeIns(n, true);
        if inner {
          CountAllAtLeast(d.children, i);
        } else {
          DedupeOffPath(n);
          assert d == DedupeIns(n, false);
        }
        forall path | Chunkable(d, path) ensures CountArgs(d) - |ListAt(d, path).values| > budget {
          assert inner;
          var j := path[0];
          ReplaceAtCount(d.children[j], path[1..], []);
          if j != i {
            CountAllAtLeastTwo(d.children, i, j);
          } else {
            CountAllAtLeast(d.children, i);
          }
        }
      }
    }
  }

  /**
   * Where every NOT is unary the early test for an unsplittable oversized list
   * only fails sooner: it never rejects a tree that splitting could have saved.
   */
  lemma OversizedTestIsRedundant(where: Node, budget: int)
    requires UnaryNots(where)
    ensures Plan(where, budget).Ok? <==>
              && budget >= 1
              && (|| CountArgs(where) <= budget
                  || CountArgs(DedupeIns(where, true)) <= budget
                  || LeavesRoom(DedupeIns(where, true), budget))
  {
    PlanSucceeds(where, budget);
    if budget >= 1 && OversizedUnchunkable(where, budget, true) {
      OversizedCounts(where, budget, true);
    }
  }

  // ------------------------------------------------------------- meaning

  /** Everything but the list at path holds of the row. */
  predicate RestMatches(n: Node, path: Path, row: Row)
    requires Chunkable(n, path)
  {
    path == [] ||
    (&& (forall i :: 0 <= i < |n.children| && i != path[0] ==> Matches(n.children[i], row))
     && RestMatches(n.children[path[0]], path[1..], row))
  }

  lemma {:induction false} MatchesByList(n: Node, path: Path, row: Row)
    requires Chunkable(n, path)
    ensures Matches(n, row) <==>
              && RestMatches(n, path, row)
              && InTruth(row, ListAt(n, path).column, ListAt(n, path).values) == True
  {
    if path != [] {
      MatchesByList(n.children[path[0]], path[1..], row);
      EvalAllTrue(n.children, row);
    }
  }

  lemma {:induction false} ReplaceAtFrame(n: Node, path: Path, chunk: seq<Value>, row: Row)
    requires Chunkable(n, path)
    ensures Chunkable(ReplaceAt(n, path, chunk), path)
    ensures ListAt(ReplaceAt(n, path, chunk), path) == InList(ListAt(n, path).column, false, chunk)
    ensures RestMatches(ReplaceAt(n, path, chunk), path, row) == RestMatches(n, path, row)
  {
    if path != [] {
      ReplaceAtFrame(n.children[path[0]], path[1..], chunk, row);
      var r := ReplaceAt(n, path, chunk);
      assert forall i :: 0 <= i < |n.children| && i != path[0] ==> r.children[i] == n.children[i];
    }
  }

  lemma ReplaceAtMatches(n: Node, path: Path, chunk: seq<Value>, row: Row)
    requires Chunkable(n, path)
    ensures Matches(ReplaceAt(n, path, chunk), row) <==>
              RestMatches(n, path, row) && InTruth(row, ListAt(n, path).column, chunk) == True
  {
    ReplaceAtFrame(n, path, chunk, row);
    MatchesByList(ReplaceAt(n, path, chunk), path, row);
  }

  function CountTrue(row: Row, column: string, chunks: seq<seq<Value>>): nat {
    if chunks == [] then 0
    else (if InTruth(row, column, chunks[0]) == True then 1 else 0) + CountTrue(row, column, chunks[1..])
  }

  /** How many of the planned predicates the row matches. */
  function MatchCount(plans: seq<Node>, row: Row): nat {
    if plans == [] then 0
    else (if Matches(plans[0], row) then 1 else 0) + MatchCount(plans[1..], row)
  }

  lemma {:induction false} MatchCountPositive(plans: seq<Node>, row: Row)
    ensures MatchCount(plans, row) > 0 <==> exists i :: 0 <= i < |plans| && Matches(plans[i], row)
  {
    if plans != [] {
      MatchCountPositive(plans[1..], row);
      assert forall i :: 1 <= i < |plans| ==> plans[i] == plans[1..][i - 1];
      assert forall i :: 0 <= i < |plans| - 1 ==> plans[1..][i] == plans[i + 1];
    }
  }

  lemma {:induction false} ReplaceEachCount(n: Node, path: Path, chunks: seq<seq<Value>>, row: Row)
    requires Chunkable(n, path)
    ensures MatchCount(ReplaceEach(n, path, chunks), row)
            == if RestMatches(n, path, row) then CountTrue(row, ListAt(n, path).column, chunks) else 0
  {
    if chunks != [] {
      assert ReplaceEach(n, path, chunks)[1..] == ReplaceEach(n, path, chunks[1..]);
      ReplaceAtMatches(n, path, chunks[0], row);
      ReplaceEachCount(n, path, chunks[1..], row);
    }
  }

  lemma {:induction false} InTruthSplit(row: Row, column: string, vs: seq<Value>, k: nat)
    requires k <= |vs|
    ensures InTruth(row, column, vs) == True <==>
              InTruth(row, column, vs[..k]) == True || InTruth(row, column, vs[k..]) == True
  {
    InTruthByMembers(row, column, vs);
    InTruthByMembers(row, column, vs[..k]);
    InTruthByMembers(row, column, vs[k..]);
    assert forall v :: v in vs <==> v in vs[..k] || v in vs[k..] by {
      assert vs == vs[..k] + vs[k..];
    }
  }

  lemma {:induction false} ChunksCoverList(row: Row, column: string, vs: seq<Value>, size: nat)
    requires size > 0
    ensures CountTrue(row, column, Chunks(vs, size)) > 0 <==> InTruth(row, column, vs) == True
    decreases |vs|
  {
    if |vs| > size {
      InTruthSplit(row, column, vs, size);
      ChunksCoverList(row, column, vs[size..], size);
      assert Chunks(vs, size)[1..] == Chunks(vs[size..], size);
    } else {
      assert Chunks(vs, size)[1..] == [];
    }
  }

  /** Two different chunks are TRUE of the row. */
  predicate TwoTrue(row: Row, column: string, chunks: seq<seq<Value>>) {
    exists i, j :: 0 <= i < j < |chunks| && InTruth(row, column, chunks[i]) == True && InTruth(row, column, chunks[j]) == True
  }

  lemma {:induction false} CountTruePositive(row: Row, column: string, chunks: seq<seq<Value>>)
    ensures CountTrue(row, column, chunks) > 0 <==> exists i :: 0 <= i < |chunks| && InTruth(row, column, chunks[i]) == True
  {
    if chunks != [] {
      var rest := chunks[1..];
      CountTruePositive(row, column, rest);
      assert forall i :: 0 <= i < |rest| ==> rest[i] == chunks[i + 1];
      if i :| 0 <= i < |chunks| && InTruth(row, column, chunks[i]) == True {
        assert i > 0 ==> rest[i - 1] == chunks[i];
      }
    }
  }

  lemma {:induction false} CountTrueTwice(row: Row, column: string, chunks: seq<seq<Value>>)
    ensures CountTrue(row, column, chunks) <= 1 <==> !TwoTrue(row, column, chunks)
  {
    if chunks != [] {
      var rest := chunks[1..];
      CountTrueTwice(row, column, rest);
      CountTruePositive(row, column, rest);
      if TwoTrue(row, column, chunks) {
        var i, j :| 0 <= i < j < |chunks| && InTruth(row, column, chunks[i]) == True && InTruth(row, column, chunks[j]) == True;
        assert rest[j - 1] == chunks[j] && (i > 0 ==> rest[i - 1] == chunks[i]);
      }
      if TwoTrue(row, column, rest) {
        var i, j :| 0 <= i < j < |rest| && InTruth(row, column, rest[i]) == True && InTruth(row, column, rest[j]) == True;
        assert chunks[i + 1] == rest[i] && chunks[j + 1] == rest[j];
      }
      if InTruth(row, column, chunks[0]) == True && CountTrue(row, column, rest) > 0 {
        var j :| 0 <= j < |rest| && InTruth(row, column, rest[j]) == True;
        assert chunks[j + 1] == rest[j];
      }
    }
  }

  /** A row that equals the values at two places of vs equals one Go value. */
  ghost predicate Distinguishes(row: Row, column: string, vs: seq<Value>) {
    forall i, j :: 0 <= i < j < |vs| && row.eq(column, vs[i]) == True && row.eq(column, vs[j]) == True ==> GoEqual(vs[i], vs[j])
  }

  lemma {:induction false} DedupeDistinguishes(row: Row, column: string, vs: seq<Value>)
    requires Distinguishes(row, column, vs)
    ensures Distinguishes(row, column, DedupeValues(vs))
  {
    if vs != [] {
      var before, n := vs[..|vs| - 1], |vs| - 1;
      DedupeDistinguishes(row, column, before);
      DedupeValuesMembers(before);
      var d := DedupeValues(before);
      forall i | 0 <= i < |d| && row.eq(column, d[i]) == True && row.eq(column, vs[n]) == True ensures GoEqual(d[i], vs[n]) {
        assert d[i] in before;
        var p :| 0 <= p < n && vs[p] == d[i];
      }
    }
  }

  /** A row equals at most one of the values. */
  ghost predicate EqualsOne(row: Row, column: string, vs: seq<Value>) {
    forall i, j :: 0 <= i < j < |vs| ==> row.eq(column, vs[i]) != True || row.eq(column, vs[j]) != True
  }

  lemma {:induction false} ChunksAreDisjoint(row: Row, column: string, vs: seq<Value>, size: nat)
    requires size > 0 && EqualsOne(row, column, vs)
    ensures CountTrue(row, column, Chunks(vs, size)) <= 1
    decreases |vs|
  {
    if |vs| > size {
      var a, b := vs[..size], vs[size..];
      assert EqualsOne(row, column, b) by {
        assert forall i :: 0 <= i < |b| ==> b[i] == vs[size + i];
      }
      ChunksAreDisjoint(row, column, b, size);
      ChunksCoverList(row, column, b, size);
      HalvesAreDisjoint(row, column, vs, size);
      assert Chunks(vs, size)[1..] == Chunks(b, size);
    } else {
      assert Chunks(vs, size)[1..] == [];
    }
  }

  lemma HalvesAreDisjoint(row: Row, column: string, vs: seq<Value>, k: nat)
    requires k <= |vs| && EqualsOne(row, column, vs)
    ensures InTruth(row, column, vs[..k]) != True || InTruth(row, column, vs[k..]) != True
  {
    var a, b := vs[..k], vs[k..];
    InTruthByMembers(row, column, a);
    InTruthByMembers(row, column, b);
    forall i, j | 0 <= i < |a| && 0 <= j < |b|
      ensures row.eq(column, a[i]) != True || row.eq(column, b[j]) != True
    {
      assert a[i] == vs[i] && b[j] == vs[k + j];
    }
  }

  /** The original predicate is TRUE of a row exactly when some plan is. */
  lemma PlanKeepsMeaning(where: Node, budget: int, row: Row)
    requires Plan(where, budget).Ok? && RespectsGoEquality(row)
    ensures Matches(where, row) <==>
              exists i :: 0 <= i < |Plan(where, budget).value| && Matches(Plan(where, budget).value[i], row)
  {
    var plans := Plan(where, budget).value;
    if CountArgs(where) <= budget {
      assert plans[0] == where;
    } else {
      var tree := DedupeIns(where, true);
      DedupeKeepsMeaning(where, true, row);
      if CountArgs(tree) <= budget {
        assert plans[0] == tree;
      } else {
        LargestIsChunkable(tree);
        var path := Largest(tree).value.path;
        var list := ListAt(tree, path);
        var room := budget - (CountArgs(tree) - |list.values|);
        MatchesByList(tree, path, row);
        ChunksCoverList(row, list.column, list.values, room);
        ReplaceEachCount(tree, path, Chunks(list.values, room), row);
        MatchCountPositive(plans, row);
      }
    }
  }

  /** The chunks that the largest list of a tree is cut into. */
  function LargestChunks(tree: Node, budget: int): seq<seq<Value>>
    requires CountArgs(tree) > budget && Split(tree, budget).Ok?
  {
    LargestIsChunkable(tree);
    Chunks(ListAt(tree, Largest(tree).value.path).values, budget - (CountArgs(tree) - Largest(tree).value.size))
  }

  function LargestColumn(tree: Node, budget: int): string
    requires CountArgs(tree) > budget && Split(tree, budget).Ok?
  {
    LargestIsChunkable(tree);
    ListAt(tree, Largest(tree).value.path).column
  }

  /** Nothing has to be cut, or no two chunks of the list that is cut are TRUE of the row. */
  predicate SeenOnce(where: Node, budget: int, row: Row)
    requires Plan(where, budget).Ok?
  {
    FitsOne(where, budget)
    || (var tree := DedupeIns(where, true);
        !TwoTrue(row, LargestColumn(tree, budget), LargestChunks(tree, budget)))
  }

  /** How often a row is seen when a list is cut. */
  lemma CutCount(where: Node, budget: int, row: Row)
    requires Plan(where, budget).Ok? && RespectsGoEquality(row) && !FitsOne(where, budget)
    ensures var tree := DedupeIns(where, true);
            MatchCount(Plan(where, budget).value, row)
            == if Matches(where, row) then CountTrue(row, LargestColumn(tree, budget), LargestChunks(tree, budget)) else 0
  {
    var tree := DedupeIns(where, true);
    DedupeKeepsMeaning(where, true, row);
    LargestIsChunkable(tree);
    var path := Largest(tree).value.path;
    var list := ListAt(tree, path);
    var room := budget - (CountArgs(tree) - |list.values|);
    MatchesByList(tree, path, row);
    ChunksCoverList(row, list.column, list.values, room);
    ReplaceEachCount(tree, path, Chunks(list.values, room), row);
  }

  /**
   * How many planned statements return a row: at least one if it matches, none
   * if it does not, and for a matching row exactly one if and only if nothing is
   * cut or no two chunks of the list that is cut are TRUE of it.
   */
  lemma MatchedOnceExactly(where: Node, budget: int, row: Row)
    requires Plan(where, budget).Ok? && RespectsGoEquality(row)
    ensures MatchCount(Plan(where, budget).value, row) >= if Matches(where, row) then 1 else 0
    ensures !Matches(where, row) ==> MatchCount(Plan(where, budget).value, row) == 0
    ensures Matches(where, row) ==> (MatchCount(Plan(where, budget).value, row) == 1 <==> SeenOnce(where, budget, row))
  {
    var plans := Plan(where, budget).value;
    PlanKeepsMeaning(where, budget, row);
    MatchCountPositive(plans, row);
    if FitsOne(where, budget) {
      SinglePlan(where, budget);
      assert plans[1..] == [];
    } else {
      var tree := DedupeIns(where, true);
      CutCount(where, budget, row);
      CountTrueTwice(row, LargestColumn(tree, budget), LargestChunks(tree, budget));
    }
  }

  /** For every list the planner may cut, a row equals one Go value of it at most, and that not twice as an unhashable one. */
  ghost predicate ListsDistinguished(where: Node, row: Row) {
    forall path :: Chunkable(where, path) ==>
      Distinguishes(row, ListAt(where, path).column, ListAt(where, path).values)
  }

  /** Where SQL agrees with Go on the listed values, a matching row is TRUE in exactly one plan, any other row in none. */
  lemma PlansAreDisjoint(where: Node, budget: int, row: Row)
    requires Plan(where, budget).Ok? && RespectsGoEquality(row) && (FitsOne(where, budget) || ListsDistinguished(where, row))
    ensures SeenOnce(where, budget, row)
    ensures MatchCount(Plan(where, budget).value, row) == if Matches(where, row) then 1 else 0
  {
    if !FitsOne(where, budget) {
      var tree := DedupeIns(where, true);
      LargestIsChunkable(tree);
      var path := Largest(tree).value.path;
      var list := ListAt(tree, path);
      DedupeChunkable(where, path);
      DedupeValuesMembers(ListAt(where, path).values);
      DedupeDistinguishes(row, list.column, ListAt(where, path).values);
      ChunksAreDisjoint(row, list.column, list.values, budget - (CountArgs(tree) - |list.values|));
      CountTrueTwice(row, LargestColumn(tree, budget), LargestChunks(tree, budget));
    }
    MatchedOnceExactly(where, budget, row);
  }

  /** One []byte value listed twice is cut into two lists of one. */
  lemma RepeatedBytesAreKept(column: string, v: Value)
    requires v.Unhashable?
    ensures var where := InList(column, false, [v, v]);
            && DedupeIns(where, true) == where && !FitsOne(where, 1) && Plan(where, 1).Ok?
            && LargestColumn(where, 1) == column && LargestChunks(where, 1) == [[v], [v]]
  {
    var one, vs := [v], [v, v];
    var where := InList(column, false, vs);
    assert vs[..1] == one && vs[1..] == one && one[..0] == [];
    assert DedupeValues(one) == one && DedupeValues(vs) == vs;
    assert DedupeIns(where, true) == where;
    assert Chunks(one, 1) == [one] && Chunks(vs, 1) == [one] + Chunks(one, 1);
    assert Largest(where) == Some(Found([], 2)) && ListAt(where, []) == where;
  }

  /** It is not deduplicated, and a row equal to it is in both statements. */
  lemma RepeatedBytesAreSeenTwice(column: string, v: Value, row: Row)
    requires v.Unhashable? && RespectsGoEquality(row) && row.eq(column, v) == True
    ensures var where := InList(column, false, [v, v]);
            && Plan(where, 1).Ok? && Matches(where, row)
            && !SeenOnce(where, 1, row) && MatchCount(Plan(where, 1).value, row) == 2
  {
    var where, chunks := InList(column, false, [v, v]), [[v], [v]];
    RepeatedBytesAreKept(column, v);
    assert InTruth(row, column, chunks[0]) == True && InTruth(row, column, chunks[1]) == True;
    assert Matches(where, row);
    assert TwoTrue(row, column, chunks);
    CutCount(where, 1, row);
    assert chunks[1..] == [[v]] && [[v]][1..] == [];
    assert CountTrue(row, column, chunks) == 1 + CountTrue(row, column, chunks[1..]);
  }
}
