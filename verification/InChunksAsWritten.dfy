/**
 * replaceInValues and splitWhere with the pointer comparisons of
 * orm/inchunks.go. Every Node lives in a slot with an address; copying an
 * array of children moves them to fresh addresses while their own children
 * stay where they are. The target is found in the original array but looked
 * for in the copy, so a target below the root is never replaced and splitWhere
 * calls itself on an unchanged tree.
 */
module InChunksAsWritten {
  import opened Basics
  import opened Predicates
  import opened InChunks

  /** A slot and the Node in it; a compound points at the slots of its children. */
  datatype Cell =
    | Leaf(addr: nat, node: Node)
    | Branch(addr: nat, compound: CompoundOp, cells: seq<Cell>)

  /** The same Node in the slot addr. */
  function Move(c: Cell, addr: nat): Cell {
    match c
    case Leaf(_, n) => Leaf(addr, n)
    case Branch(_, op, cells) => Branch(addr, op, cells)
  }

  /** The predicate a tree of slots stands for. */
  function Erase(c: Cell): Node {
    match c
    case Leaf(_, n) => n
    case Branch(_, op, cells) =>
      Compound(op, seq(|cells|, i requires 0 <= i < |cells| => Erase(cells[i])))
  }

  function EraseAll(cells: seq<Cell>): seq<Node> {
    seq(|cells|, i requires 0 <= i < |cells| => Erase(cells[i]))
  }

  /** Leaves hold no compounds and every address under c is below next. */
  predicate WellPlaced(c: Cell, next: nat) {
    match c
    case Leaf(_, n) => !n.Compound?
    case Branch(_, _, cells) =>
      forall i :: 0 <= i < |cells| ==> cells[i].addr < next && WellPlaced(cells[i], next)
  }

  lemma {:induction false} WellPlacedGrows(c: Cell, next: nat, later: nat)
    requires WellPlaced(c, next) && next <= later
    ensures WellPlaced(c, later)
  {
    if c.Branch? {
      forall i | 0 <= i < |c.cells| ensures WellPlaced(c.cells[i], later) {
        WellPlacedGrows(c.cells[i], next, later);
      }
    }
  }

  /** Only the addresses below the slot matter. */
  lemma MoveCell(c: Cell, addr: nat, next: nat)
    ensures Erase(Move(c, addr)) == Erase(c)
    ensures WellPlaced(Move(c, addr), next) <==> WellPlaced(c, next)
  {
  }

  // ------------------------------------------------------- replaceInValues

  predicate Contains(c: Cell, target: nat) {
    || c.addr == target
    || (c.Branch? && exists i :: 0 <= i < |c.cells| && Contains(c.cells[i], target))
  }

  /** make and copy: the same trees in slots next, next + 1, ... */
  function CopyCells(cells: seq<Cell>, next: nat): seq<Cell> {
    seq(|cells|, i requires 0 <= i < |cells| => Move(cells[i], next + i))
  }

  function Rank(c: Cell): nat {
    match c
    case Leaf(_, _) => 0
    case Branch(_, _, cells) => 1 + RankAll(cells)
  }

  function RankAll(cells: seq<Cell>): nat {
    if cells == [] then 0 else 1 + Rank(cells[0]) + RankAll(cells[1..])
  }

  lemma {:induction false} CopyKeepsRank(cells: seq<Cell>, next: nat)
    ensures RankAll(CopyCells(cells, next)) == RankAll(cells)
  {
    if cells != [] {
      CopyKeepsRank(cells[1..], next + 1);
      assert CopyCells(cells, next)[1..] == CopyCells(cells[1..], next + 1);
    }
  }

  /** The new value of the slot where, and the next free address. */
  function Replace(where: Cell, target: nat, chunk: seq<Value>, next: nat): (Cell, nat)
    decreases Rank(where), 0
  {
    if where.addr == target then
      (if where.Leaf? && where.node.InList? then where.(node := where.node.(values := chunk)) else where, next)
    else if where.Leaf? then (where, next)
    else
      CopyKeepsRank(where.cells, next);
      var (copied, after) := ReplaceCells(CopyCells(where.cells, next), target, chunk, next + |where.cells|);
      (where.(cells := copied), after)
  }

  /** The loop over the copied children. */
  function ReplaceCells(cells: seq<Cell>, target: nat, chunk: seq<Value>, next: nat): (seq<Cell>, nat)
    decreases RankAll(cells), 1
  {
    if cells == [] then ([], next)
    else
      var (first, after) :=
        if Contains(cells[0], target) then Replace(cells[0], target, chunk, next) else (cells[0], next);
      var (rest, end) := ReplaceCells(cells[1..], target, chunk, after);
      ([first] + rest, end)
  }

  lemma MovedIsPlaced(c: Cell, addr: nat, next: nat, later: nat)
    requires WellPlaced(c, next) && next <= later
    ensures WellPlaced(Move(c, addr), later) && Erase(Move(c, addr)) == Erase(c) && Move(c, addr).addr == addr
  {
    WellPlacedGrows(c, next, later);
    MoveCell(c, addr, later);
  }

  lemma CopyIsPlaced(cells: seq<Cell>, next: nat)
    requires forall i :: 0 <= i < |cells| ==> cells[i].addr < next && WellPlaced(cells[i], next)
    ensures var copied := CopyCells(cells, next);
            && EraseAll(copied) == EraseAll(cells)
            && forall i :: 0 <= i < |copied| ==>
                 next <= copied[i].addr < next + |cells| && WellPlaced(copied[i], next + |cells|)
  {
    var copied := CopyCells(cells, next);
    forall i | 0 <= i < |copied|
      ensures && next <= copied[i].addr < next + |cells|
              && WellPlaced(copied[i], next + |cells|)
              && Erase(copied[i]) == Erase(cells[i])
    {
      MovedIsPlaced(cells[i], next + i, next, next + |cells|);
    }
    assert EraseAll(copied) == EraseAll(cells);
  }

  /** A target that is not the root itself is never found: nothing changes. */
  lemma {:induction false} ReplaceMissesBelowRoot(where: Cell, target: nat, chunk: seq<Value>, next: nat)
    requires where.addr != target && target < next && WellPlaced(where, next)
    ensures var (c, after) := Replace(where, target, chunk, next);
            && next <= after && c.addr == where.addr
            && Erase(c) == Erase(where) && WellPlaced(c, after)
    decreases Rank(where), 0
  {
    if where.Branch? {
      var cells := where.cells;
      CopyKeepsRank(cells, next);
      CopyIsPlaced(cells, next);
      ReplaceCellsMisses(CopyCells(cells, next), target, chunk, next + |cells|);
    }
  }

  lemma {:induction false} ReplaceCellsMisses(cells: seq<Cell>, target: nat, chunk: seq<Value>, next: nat)
    requires target < next
    requires forall i :: 0 <= i < |cells| ==> target < cells[i].addr < next && WellPlaced(cells[i], next)
    ensures var (out, after) := ReplaceCells(cells, target, chunk, next);
            && next <= after && EraseAll(out) == EraseAll(cells)
            && forall i :: 0 <= i < |out| ==> out[i].addr < after && WellPlaced(out[i], after)
    decreases RankAll(cells), 1
  {
    if cells != [] {
      ReplaceMissesBelowRoot(cells[0], target, chunk, next);
      var (first, after) :=
        if Contains(cells[0], target) then Replace(cells[0], target, chunk, next) else (cells[0], next);
      var tail := cells[1..];
      forall i | 0 <= i < |tail| ensures target < tail[i].addr < after && WellPlaced(tail[i], after) {
        assert tail[i] == cells[i + 1];
        WellPlacedGrows(tail[i], next, after);
      }
      ReplaceCellsMisses(tail, target, chunk, after);
      var (rest, end) := ReplaceCells(tail, target, chunk, after);
      WellPlacedGrows(first, after, end);
      var out := [first] + rest;
      assert |rest| == |EraseAll(rest)| == |tail|;
      forall i | 0 <= i < |cells| ensures Erase(out[i]) == Erase(cells[i]) {
        if i > 0 {
          assert EraseAll(rest)[i - 1] == EraseAll(tail)[i - 1];
        }
      }
      assert EraseAll(out) == EraseAll(cells);
    }
  }

  // ------------------------------------------------------------- splitWhere

  /** The slot the pointer returned by largestChunkableIn points to. */
  function CellAt(c: Cell, path: Path): Cell {
    if path == [] || c.Leaf? || path[0] >= |c.cells| then c
    else CellAt(c.cells[path[0]], path[1..])
  }

  lemma {:induction false} CellAtIsBelow(c: Cell, path: Path, next: nat)
    requires WellPlaced(c, next) && Chunkable(Erase(c), path) && path != []
    ensures CellAt(c, path).addr < next
  {
    if path[1..] != [] {
      CellAtIsBelow(c.cells[path[0]], path[1..], next);
    }
  }

  /**
   * splitWhere on a by-value argument that occupies the slot next, run with at
   * most depth nested calls. None means the call has not returned by then.
   */
  function SplitAsWritten(where: Cell, budget: int, next: nat, depth: nat): Option<Result<seq<Node>, PlanError>>
    decreases depth, 1, 0
  {
    var n := Erase(where);
    if depth == 0 then None
    else if CountArgs(n) <= budget then Some(Ok([n]))
    else if Largest(n).None? then Some(Err(InListTooLarge))
    else
      LargestIsChunkable(n);
      var path := Largest(n).value.path;
      var root := Move(where, next);
      var vals := ListAt(n, path).values;
      var chunkSize := budget - (CountArgs(n) - |vals|);
      if chunkSize < 1 || |vals| <= chunkSize then Some(Err(InListTooLarge))
      else SplitLoop(root, CellAt(root, path).addr, vals, 0, chunkSize, budget, next + 1, depth)
  }

  function SplitLoop(
    root: Cell, target: nat, vals: seq<Value>, start: nat, size: nat, budget: int, next: nat, depth: nat
  ): Option<Result<seq<Node>, PlanError>>
    requires size > 0 && depth > 0
    decreases depth, 0, if start < |vals| then |vals| - start else 0
  {
    if start >= |vals| then Some(Ok([]))
    else
      var (piece, after) := Replace(root, target, vals[start..Min(start + size, |vals|)], next);
      match SplitAsWritten(piece, budget, after, depth - 1)
      case None => None
      case Some(Err(e)) => Some(Err(e))
      case Some(Ok(sub)) =>
        match SplitLoop(root, target, vals, start + size, size, budget, after, depth)
        case None => None
        case Some(Err(e)) => Some(Err(e))
        case Some(Ok(rest)) => Some(Ok(sub + rest))
  }

  /** A split below the root is called for: the tree does not fit but could be cut. */
  predicate NeedsNestedSplit(n: Node, budget: int) {
    && CountArgs(n) > budget
    && n.Compound?
    && Split(n, budget).Ok?
  }

  /** Path and length of the list to cut and the room the other arguments leave. */
  lemma NestedTarget(n: Node, budget: int)
    requires NeedsNestedSplit(n, budget)
    ensures Largest(n).Some?
    ensures var path := Largest(n).value.path;
            && path != [] && Chunkable(n, path)
            && 1 <= budget - (CountArgs(n) - |ListAt(n, path).values|) < |ListAt(n, path).values|
  {
    LargestIsChunkable(n);
    ReplaceAtCount(n, Largest(n).value.path, []);
  }

  lemma NestedReplace(where: Cell, path: Path, chunk: seq<Value>, next: nat)
    requires WellPlaced(where, next) && Chunkable(Erase(where), path) && path != []
    ensures var root := Move(where, next);
            var step := Replace(root, CellAt(root, path).addr, chunk, next + 1);
            Erase(step.0) == Erase(where) && WellPlaced(step.0, step.1)
  {
    var root := Move(where, next);
    MoveCell(where, next, next);
    CellAtIsBelow(root, path, next);
    WellPlacedGrows(root, next, next + 1);
    ReplaceMissesBelowRoot(root, CellAt(root, path).addr, chunk, next + 1);
  }

  lemma FirstCallDecides(
    root: Cell, target: nat, vals: seq<Value>, size: nat, budget: int, next: nat, depth: nat,
    step: (Cell, nat), sub: Option<Result<seq<Node>, PlanError>>)
    requires 0 < size < |vals| && depth > 0
    requires step == Replace(root, target, vals[0..size], next)
    requires sub == SplitAsWritten(step.0, budget, step.1, depth - 1) && sub.None?
    ensures SplitLoop(root, target, vals, 0, size, budget, next, depth).None?
  {
    assert Min(0 + size, |vals|) == size;
  }

  /** Below the root the recursion never reaches a smaller tree. */
  lemma {:induction false} NestedSplitNeverReturns(where: Cell, budget: int, next: nat, depth: nat)
    requires WellPlaced(where, next) && NeedsNestedSplit(Erase(where), budget)
    ensures SplitAsWritten(where, budget, next, depth).None?
    decreases depth
  {
    if depth > 0 {
      var n, root := Erase(where), Move(where, next);
      NestedTarget(n, budget);
      var path := Largest(n).value.path;
      var vals := ListAt(n, path).values;
      var room := budget - (CountArgs(n) - |vals|);
      var target := CellAt(root, path).addr;
      NestedReplace(where, path, vals[0..room], next);
      var step := Replace(root, target, vals[0..room], next + 1);
      NestedSplitNeverReturns(step.0, budget, step.1, depth - 1);
      var sub := SplitAsWritten(step.0, budget, step.1, depth - 1);
      FirstCallDecides(root, target, vals, room, budget, next + 1, depth, step, sub);
    }
  }

  lemma {:induction false} RootLoopReturns(
    root: Cell, vals: seq<Value>, start: nat, size: nat, budget: int, next: nat, depth: nat)
    requires root.Leaf? && root.node.InList? && !root.node.negated
    requires vals == root.node.values && size == budget > 0 && depth >= 2
    ensures SplitLoop(root, root.addr, vals, start, size, budget, next, depth)
            == Some(Ok(Pieces(root.node, [], vals, start, size)))
    decreases if start < |vals| then |vals| - start else 0
  {
    if start < |vals| {
      var n := root.node;
      var end := Min(start + size, |vals|);
      var piece := ReplaceAt(n, [], vals[start..end]);
      assert Replace(root, root.addr, vals[start..end], next) == (Leaf(root.addr, piece), next);
      assert SplitAsWritten(Leaf(root.addr, piece), budget, next, depth - 1) == Some(Ok([piece]));
      RootLoopReturns(root, vals, start + size, size, budget, next, depth);
      var all := Pieces(n, [], vals, start, size);
      assert [] + all == all;
      RemainingStep([], n, [], vals, start, end, size, all);
      assert [] + [piece] == [piece];
    }
  }

  /** Everywhere else two levels of calls suffice and give the intended answer. */
  lemma OtherSplitsReturn(where: Cell, budget: int, next: nat, depth: nat)
    requires WellPlaced(where, next) && depth >= 2 && budget >= 1
    requires !NeedsNestedSplit(Erase(where), budget)
    ensures SplitAsWritten(where, budget, next, depth) == Some(Split(Erase(where), budget))
  {
    var n := Erase(where);
    LargestIsChunkable(n);
    if CountArgs(n) > budget && Largest(n).Some? {
      ReplaceAtCount(n, Largest(n).value.path, []);
      if n.InList? {
        RootLoopReturns(Move(where, next), n.values, 0, budget, budget, next + 1, depth);
        SplitIsPieces(n, budget);
      }
    }
  }

  // ------------------------------------------------------------ planInChunks

  /** Deduplication rebuilds every array of children: each node gets a fresh slot. */
  function Place(n: Node, next: nat): (Cell, nat)
    decreases n, 0
  {
    if n.Compound? then
      var (cells, after) := PlaceAll(n.children, next + 1);
      (Branch(next, n.compound, cells), after)
    else (Leaf(next, n), next + 1)
  }

  function PlaceAll(ns: seq<Node>, next: nat): (seq<Cell>, nat)
    decreases ns, 1
  {
    if ns == [] then ([], next)
    else
      var (first, after) := Place(ns[0], next);
      var (rest, end) := PlaceAll(ns[1..], after);
      ([first] + rest, end)
  }

  lemma {:induction false} PlaceErases(n: Node, next: nat)
    ensures var (c, after) := Place(n, next);
            next <= c.addr < after && Erase(c) == n && WellPlaced(c, after)
    decreases n, 0
  {
    if n.Compound? {
      PlaceAllErases(n.children, next + 1);
      var (cells, after) := PlaceAll(n.children, next + 1);
      assert EraseAll(cells) == n.children;
    }
  }

  lemma {:induction false} PlaceAllErases(ns: seq<Node>, next: nat)
    ensures var (cells, after) := PlaceAll(ns, next);
            && next <= after && EraseAll(cells) == ns
            && forall i :: 0 <= i < |cells| ==> cells[i].addr < after && WellPlaced(cells[i], after)
    decreases ns, 1
  {
    if ns != [] {
      PlaceErases(ns[0], next);
      var (first, after) := Place(ns[0], next);
      PlaceAllErases(ns[1..], after);
      var (rest, end) := PlaceAll(ns[1..], after);
      WellPlacedGrows(first, after, end);
      var cells := [first] + rest;
      assert cells[1..] == rest;
      assert forall i :: 0 <= i < |cells| ==> cells[i] == if i == 0 then first else rest[i - 1];
    }
  }

  function PlanAsWritten(where: Node, budget: int, depth: nat): Option<Result<seq<Node>, PlanError>> {
    if budget < 1 then Some(Err(InListTooLarge))
    else if CountArgs(where) <= budget then Some(Ok([where]))
    else if OversizedUnchunkable(where, budget, true) then Some(Err(InListTooLarge))
    else
      var deduped := DedupeIns(where, true);
      if CountArgs(deduped) <= budget then Some(Ok([deduped]))
      else
        var (cell, next) := Place(deduped, 0);
        SplitAsWritten(cell, budget, next, depth)
  }

  /** A list below the root has to be cut, and can be. */
  ghost predicate SplitsBelowRoot(where: Node, budget: int) {
    && where.Compound? && budget >= 1
    && !FitsOne(where, budget)
    && !OversizedUnchunkable(where, budget, true)
    && LeavesRoom(DedupeIns(where, true), budget)
  }

  /**
   * planInChunks as written returns exactly when no list below the root has to
   * be cut, and then it returns the documented plan. In the remaining case no
   * number of nested calls is enough.
   */
  lemma PlanAsWrittenReturns(where: Node, budget: int)
    ensures (exists depth :: PlanAsWritten(where, budget, depth).Some?) <==> !SplitsBelowRoot(where, budget)
    ensures !SplitsBelowRoot(where, budget) ==>
              forall depth :: depth >= 2 ==> PlanAsWritten(where, budget, depth) == Some(Plan(where, budget))
  {
    PlanSucceeds(where, budget);
    var deduped := DedupeIns(where, true);
    var (cell, next) := Place(deduped, 0);
    PlaceErases(deduped, 0);
    if SplitsBelowRoot(where, budget) {
      forall depth: nat ensures PlanAsWritten(where, budget, depth).None? {
        NestedSplitNeverReturns(cell, budget, next, depth);
      }
    } else {
      forall depth: nat | depth >= 2
        ensures PlanAsWritten(where, budget, depth) == Some(Plan(where, budget))
      {
        if budget >= 1 && CountArgs(where) > budget && !OversizedUnchunkable(where, budget, true)
           && CountArgs(deduped) > budget {
          OtherSplitsReturn(cell, budget, next, depth);
        }
      }
      assert PlanAsWritten(where, budget, 2).Some?;
    }
  }

  /** a = 1 AND b IN (1, 2, 3) with two arguments a statement: no call returns. */
  lemma SmallestNestedSplit(depth: nat)
    ensures var one, two, three := Comparable(1, 1), Comparable(2, 2), Comparable(3, 3);
            var where := Compound(CAnd, [Binary("a", Eq, one), InList("b", false, [one, two, three])]);
            Plan(where, 2).Ok? && PlanAsWritten(where, 2, depth).None?
  {
    var one, two, three := Comparable(1, 1), Comparable(2, 2), Comparable(3, 3);
    var list := InList("b", false, [one, two, three]);
    var ns := [Binary("a", Eq, one), list];
    var where := Compound(CAnd, ns);
    assert ns[1..] == [list];
    assert DedupeValues(list.values) == list.values by {
      assert [one, two, three][..2] == [one, two] && [one, two][..1] == [one] && [one][..0] == [];
      assert DedupeValues([one]) == [one];
      assert DedupeValues([one, two]) == [one, two];
    }
    assert DedupeIns(where, true).children == ns;
    assert CountAll([list]) == 3 by {
      assert [list][1..] == [];
    }
    assert CountAll(ns) == 4;
    assert Chunkable(where, [1]) by {
      assert [1][1..] == [];
    }
    assert ListAt(where, [1]) == list by {
      assert [1][1..] == [];
    }
    assert LeavesRoom(where, 2);
    assert !OversizedUnchunkable(where, 2, true);
    PlanSucceeds(where, 2);
    PlanAsWrittenReturns(where, 2);
  }
}
