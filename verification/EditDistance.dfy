/**
 * The "did you mean" suggestions of config/suggest.go: a distance table filled
 * in place, and what its last entry means.
 */
module EditDistance {
  import opened Basics

  /** By the last characters of the first i of a and the first j of b; Go compares bytes. */
  function Prefixes(a: string, b: string, i: nat, j: nat): nat
    requires i <= |a| && j <= |b|
    decreases i + j
  {
    if i == 0 then j
    else if j == 0 then i
    else
      var plain := Min(Min(Prefixes(a, b, i - 1, j) + 1, Prefixes(a, b, i, j - 1) + 1),
                       Prefixes(a, b, i - 1, j - 1) + Mismatch(a, b, i, j));
      if Swapped(a, b, i, j) then Min(plain, Prefixes(a, b, i - 2, j - 2) + 1) else plain
  }

  /** The last two characters are each other's. */
  predicate Swapped(a: string, b: string, i: nat, j: nat)
    requires i <= |a| && j <= |b|
  {
    i > 1 && j > 1 && a[i - 1] == b[j - 2] && a[i - 2] == b[j - 1]
  }

  function Mismatch(a: string, b: string, i: nat, j: nat): nat
    requires 0 < i <= |a| && 0 < j <= |b|
  {
    if a[i - 1] == b[j - 1] then 0 else 1
  }

  /** The least of what the last edit can come from. */
  lemma Recurrence(a: string, b: string, i: nat, j: nat)
    requires 0 < i <= |a| && 0 < j <= |b|
    ensures Prefixes(a, b, i, j) <= Prefixes(a, b, i - 1, j) + 1
    ensures Prefixes(a, b, i, j) <= Prefixes(a, b, i, j - 1) + 1
    ensures Prefixes(a, b, i, j) <= Prefixes(a, b, i - 1, j - 1) + Mismatch(a, b, i, j)
    ensures Swapped(a, b, i, j) ==> Prefixes(a, b, i, j) <= Prefixes(a, b, i - 2, j - 2) + 1
    ensures || Prefixes(a, b, i, j) == Prefixes(a, b, i - 1, j) + 1
            || Prefixes(a, b, i, j) == Prefixes(a, b, i, j - 1) + 1
            || Prefixes(a, b, i, j) == Prefixes(a, b, i - 1, j - 1) + Mismatch(a, b, i, j)
            || (Swapped(a, b, i, j) && Prefixes(a, b, i, j) == Prefixes(a, b, i - 2, j - 2) + 1)
  {
  }

  function Dist(a: string, b: string): nat {
    Prefixes(a, b, |a|, |b|)
  }

  /** Row i of the table is right up to column n. */
  ghost predicate RowDone(d: array2<int>, a: string, b: string, i: nat, n: nat)
    requires i < d.Length0 && n <= d.Length1 && i <= |a| && n <= |b| + 1
    reads d
  {
    forall j :: 0 <= j < n ==> d[i, j] == Prefixes(a, b, i, j)
  }

  /** damerauLevenshtein */
  method DamerauLevenshtein(a: string, b: string) returns (r: int)
    ensures r == Dist(a, b)
  {
    var la, lb := |a|, |b|;
    if la == 0 {
      return lb;
    }
    if lb == 0 {
      return la;
    }
    var width := lb + 1;
    var d := new int[la + 1, width];
    for i := 0 to la + 1
      invariant forall k :: 0 <= k < i ==> d[k, 0] == k
    {
      d[i, 0] := i;
    }
    for j := 0 to width
      invariant forall k :: 0 <= k <= la ==> d[k, 0] == k
      invariant forall k :: 0 <= k < j ==> d[0, k] == k
    {
      d[0, j] := j;
    }
    for i := 1 to la + 1
      invariant forall k :: 0 <= k <= la ==> d[k, 0] == k
      invariant forall k :: 0 <= k < i ==> RowDone(d, a, b, k, width)
    {
      label before:
      FillRow(d, a, b, i);
      forall k | 0 <= k < i ensures RowDone(d, a, b, k, width) {
        assert old@before(RowDone(d, a, b, k, width));
      }
    }
    assert RowDone(d, a, b, la, width);
    r := d[la, lb];
  }

  /** The inner loop. */
  method FillRow(d: array2<int>, a: string, b: string, i: nat)
    requires 1 <= i <= |a| && d.Length0 == |a| + 1 && d.Length1 == |b| + 1
    requires d[i, 0] == i && forall k :: 0 <= k < i ==> RowDone(d, a, b, k, d.Length1)
    modifies d
    ensures RowDone(d, a, b, i, d.Length1)
    ensures forall k, j :: 0 <= k <= |a| && 0 <= j <= |b| && k != i ==> d[k, j] == old(d[k, j])
    ensures d[i, 0] == i
  {
    for j := 1 to d.Length1
      invariant d[i, 0] == i && RowDone(d, a, b, i, j)
      invariant forall k, l :: 0 <= k <= |a| && 0 <= l <= |b| && k != i ==> d[k, l] == old(d[k, l])
    {
      assert old(RowDone(d, a, b, i - 1, d.Length1));
      Recurrence(a, b, i, j);
      var cost := 0;
      if a[i - 1] != b[j - 1] {
        cost := 1;
      }
      d[i, j] := Min(Min(d[i - 1, j] + 1, d[i, j - 1] + 1), d[i - 1, j - 1] + cost);
      if i > 1 && j > 1 && a[i - 1] == b[j - 2] && a[i - 2] == b[j - 1] {
        assert old(RowDone(d, a, b, i - 2, d.Length1));
        if d[i - 2, j - 2] + 1 < d[i, j] {
          d[i, j] := d[i - 2, j - 2] + 1;
        }
      }
    }
  }

  // --------------------------------------------------------- tables in general

  type Table = (nat, nat) -> nat

  /** One entry against its neighbours: no more than any of them allows, and no less than all. */
  ghost predicate Cell(a: string, b: string, t: Table, i: nat, j: nat)
    requires i <= |a| && j <= |b|
  {
    if i == 0 then t(i, j) == j
    else if j == 0 then t(i, j) == i
    else
      && t(i, j) <= t(i - 1, j) + 1
      && t(i, j) <= t(i, j - 1) + 1
      && t(i, j) <= t(i - 1, j - 1) + Mismatch(a, b, i, j)
      && (Swapped(a, b, i, j) ==> t(i, j) <= t(i - 2, j - 2) + 1)
      && (|| t(i, j) == t(i - 1, j) + 1
          || t(i, j) == t(i, j - 1) + 1
          || t(i, j) == t(i - 1, j - 1) + Mismatch(a, b, i, j)
          || (Swapped(a, b, i, j) && t(i, j) == t(i - 2, j - 2) + 1))
  }

  ghost predicate IsTable(a: string, b: string, t: Table) {
    forall i, j :: 0 <= i <= |a| && 0 <= j <= |b| ==> Cell(a, b, t, i, j)
  }

  function TableOf(a: string, b: string): Table {
    (i: nat, j: nat) => if i <= |a| && j <= |b| then Prefixes(a, b, i, j) else 0
  }

  /** Cell, with the distances in place of the table's entries. */
  lemma CellOfPrefixes(a: string, b: string, t: Table, i: nat, j: nat)
    requires 0 < i <= |a| && 0 < j <= |b| && t(i, j) == Prefixes(a, b, i, j)
    requires t(i - 1, j) == Prefixes(a, b, i - 1, j) && t(i, j - 1) == Prefixes(a, b, i, j - 1)
    requires t(i - 1, j - 1) == Prefixes(a, b, i - 1, j - 1)
    requires i > 1 && j > 1 ==> t(i - 2, j - 2) == Prefixes(a, b, i - 2, j - 2)
    ensures Cell(a, b, t, i, j)
  {
    Recurrence(a, b, i, j);
  }

  lemma CellOfTable(a: string, b: string, i: nat, j: nat)
    requires i <= |a| && j <= |b|
    ensures Cell(a, b, TableOf(a, b), i, j)
  {
    if i > 0 && j > 0 {
      CellOfPrefixes(a, b, TableOf(a, b), i, j);
    }
  }

  lemma TableOfIsTable(a: string, b: string)
    ensures IsTable(a, b, TableOf(a, b))
  {
    forall i, j | 0 <= i <= |a| && 0 <= j <= |b| ensures Cell(a, b, TableOf(a, b), i, j) {
      CellOfTable(a, b, i, j);
    }
  }

  // ------------------------------------------------------------ edit scripts

  /** Edits of disjoint pieces, left to right; Swap exchanges two neighbours. */
  datatype Edit = Keep(c: char) | Substitute(from: char, to: char) | Insert(c: char) | Delete(c: char) | Swap(x: char, y: char)

  function Old(e: Edit): string {
    match e
    case Keep(c) => [c]
    case Substitute(x, _) => [x]
    case Insert(_) => ""
    case Delete(c) => [c]
    case Swap(x, y) => [x, y]
  }

  function New(e: Edit): string {
    match e
    case Keep(c) => [c]
    case Substitute(_, y) => [y]
    case Insert(c) => [c]
    case Delete(_) => ""
    case Swap(x, y) => [y, x]
  }

  function Source(script: seq<Edit>): string {
    if script == [] then "" else Source(script[..|script| - 1]) + Old(script[|script| - 1])
  }

  function Target(script: seq<Edit>): string {
    if script == [] then "" else Target(script[..|script| - 1]) + New(script[|script| - 1])
  }

  function Cost(script: seq<Edit>): nat {
    if script == [] then 0
    else Cost(script[..|script| - 1]) + (if script[|script| - 1].Keep? then 0 else 1)
  }

  predicate Edits(script: seq<Edit>, a: string, b: string) {
    Source(script) == a && Target(script) == b
  }

  lemma Append(script: seq<Edit>, e: Edit)
    ensures Source(script + [e]) == Source(script) + Old(e)
    ensures Target(script + [e]) == Target(script) + New(e)
    ensures Cost(script + [e]) == Cost(script) + (if e.Keep? then 0 else 1)
  {
    assert (script + [e])[..|script|] == script;
  }

  /** piece is what the first i of a end with. */
  predicate Piece(a: string, i: nat, piece: string) {
    |piece| <= i <= |a| && a[i - |piece|..i] == piece
  }

  lemma DropPiece(a: string, i: nat, front: string, piece: string)
    requires i <= |a| && a[..i] == front + piece
    ensures Piece(a, i, piece) && a[..i - |piece|] == front
  {
    assert i == |front| + |piece|;
    assert a[..i][..|front|] == front && a[..i][|front|..] == piece;
  }

  lemma PieceChars(a: string, i: nat, piece: string)
    requires Piece(a, i, piece)
    ensures |piece| == 1 ==> a[i - 1] == piece[0]
    ensures |piece| == 2 ==> a[i - 1] == piece[1] && a[i - 2] == piece[0]
  {
    var end := a[i - |piece|..i];
    assert forall k :: 0 <= k < |piece| ==> end[k] == a[i - |piece| + k];
  }

  /** One more edit raises the distance by its cost at most. */
  lemma OneEdit(a: string, b: string, t: Table, i: nat, j: nat, e: Edit, cost: nat)
    requires IsTable(a, b, t) && Piece(a, i, Old(e)) && Piece(b, j, New(e))
    requires t(i - |Old(e)|, j - |New(e)|) <= cost
    ensures t(i, j) <= cost + (if e.Keep? then 0 else 1)
  {
    assert Cell(a, b, t, i, j) && Cell(a, b, t, i - |Old(e)|, j - |New(e)|);
    PieceChars(a, i, Old(e));
    PieceChars(b, j, New(e));
    if i > 0 && j > 0 {
      match e
      case Keep(_) =>
      case Substitute(_, _) =>
      case Insert(_) =>
      case Delete(_) =>
      case Swap(_, _) => assert Swapped(a, b, i, j);
    }
  }

  /** No script is cheaper than the distance of what it leads from and to. */
  lemma {:induction false} NoScriptIsCheaper(script: seq<Edit>, a: string, b: string, t: Table, i: nat, j: nat)
    requires IsTable(a, b, t) && i <= |a| && j <= |b| && Edits(script, a[..i], b[..j])
    ensures t(i, j) <= Cost(script)
  {
    if script == [] {
      assert |a[..i]| == 0 && |b[..j]| == 0;
      assert Cell(a, b, t, 0, 0);
    } else {
      var rest, e := script[..|script| - 1], script[|script| - 1];
      DropPiece(a, i, Source(rest), Old(e));
      DropPiece(b, j, Target(rest), New(e));
      NoScriptIsCheaper(rest, a, b, t, i - |Old(e)|, j - |New(e)|);
      OneEdit(a, b, t, i, j, e, Cost(rest));
    }
  }

  lemma Whole(script: seq<Edit>)
    ensures Dist(Source(script), Target(script)) <= Cost(script)
  {
    var a, b := Source(script), Target(script);
    assert a[..|a|] == a && b[..|b|] == b;
    TableOfIsTable(a, b);
    NoScriptIsCheaper(script, a, b, TableOf(a, b), |a|, |b|);
  }

  lemma LastTwo(a: string, i: nat)
    requires 0 < i <= |a|
    ensures a[..i] == a[..i - 1] + [a[i - 1]]
    ensures i > 1 ==> a[..i] == a[..i - 2] + [a[i - 2], a[i - 1]]
  {
  }

  /** e leads from the first i of a to the first j of b, at the end. */
  ghost predicate Ends(a: string, b: string, i: nat, j: nat, e: Edit)
    requires i <= |a| && j <= |b|
  {
    && |Old(e)| <= i && |New(e)| <= j && |Old(e)| + |New(e)| > 0
    && a[..i] == a[..i - |Old(e)|] + Old(e) && b[..j] == b[..j - |New(e)|] + New(e)
  }

  /** The four edits that the last characters allow. */
  predicate Possible(a: string, b: string, i: nat, j: nat, e: Edit)
    requires i <= |a| && j <= |b|
  {
    match e
    case Keep(c) => i > 0 && j > 0 && c == a[i - 1] == b[j - 1]
    case Substitute(x, y) => i > 0 && j > 0 && x == a[i - 1] && y == b[j - 1]
    case Insert(c) => j > 0 && c == b[j - 1]
    case Delete(c) => i > 0 && c == a[i - 1]
    case Swap(x, y) => Swapped(a, b, i, j) && x == a[i - 2] && y == a[i - 1]
  }

  lemma PossibleEnds(a: string, b: string, i: nat, j: nat, e: Edit)
    requires i <= |a| && j <= |b| && Possible(a, b, i, j, e)
    ensures Ends(a, b, i, j, e)
  {
    if i > 0 {
      LastTwo(a, i);
    }
    if j > 0 {
      LastTwo(b, j);
    }
  }

  /** The edit that the last step of the recursion amounts to. */
  lemma LastEdit(a: string, b: string, t: Table, i: nat, j: nat) returns (e: Edit)
    requires IsTable(a, b, t) && i <= |a| && j <= |b| && i + j > 0
    ensures Possible(a, b, i, j, e) && |Old(e)| <= i && |New(e)| <= j
    ensures t(i, j) == t(i - |Old(e)|, j - |New(e)|) + (if e.Keep? then 0 else 1)
  {
    assert Cell(a, b, t, i, j);
    if i == 0 {
      assert Cell(a, b, t, i, j - 1);
      return Insert(b[j - 1]);
    } else if j == 0 {
      assert Cell(a, b, t, i - 1, j);
      return Delete(a[i - 1]);
    } else if t(i, j) == t(i, j - 1) + 1 {
      return Insert(b[j - 1]);
    } else if t(i, j) == t(i - 1, j) + 1 {
      return Delete(a[i - 1]);
    } else if t(i, j) == t(i - 1, j - 1) + Mismatch(a, b, i, j) {
      return if a[i - 1] == b[j - 1] then Keep(a[i - 1]) else Substitute(a[i - 1], b[j - 1]);
    }
    return Swap(a[i - 2], a[i - 1]);
  }

  /** Some script costs no more than the distance. */
  lemma {:induction false} SomeScriptIsAsCheap(a: string, b: string, t: Table, i: nat, j: nat) returns (script: seq<Edit>)
    requires IsTable(a, b, t) && i <= |a| && j <= |b|
    ensures Edits(script, a[..i], b[..j]) && Cost(script) == t(i, j)
    decreases i + j
  {
    if i == 0 && j == 0 {
      assert Cell(a, b, t, i, j);
      script := [];
    } else {
      var e := LastEdit(a, b, t, i, j);
      PossibleEnds(a, b, i, j, e);
      var rest := SomeScriptIsAsCheap(a, b, t, i - |Old(e)|, j - |New(e)|);
      Extend(rest, e, a[..i - |Old(e)|], b[..j - |New(e)|]);
      script := rest + [e];
    }
  }

  lemma Extend(script: seq<Edit>, e: Edit, a: string, b: string)
    requires Edits(script, a, b)
    ensures Edits(script + [e], a + Old(e), b + New(e))
    ensures Cost(script + [e]) == Cost(script) + (if e.Keep? then 0 else 1)
  {
    Append(script, e);
  }

  lemma Cheapest(a: string, b: string) returns (script: seq<Edit>)
    ensures Edits(script, a, b) && Cost(script) == Dist(a, b)
  {
    TableOfIsTable(a, b);
    script := SomeScriptIsAsCheap(a, b, TableOf(a, b), |a|, |b|);
    assert a[..|a|] == a && b[..|b|] == b;
  }

  /** The distance is the least cost of any edit script. */
  lemma DistIsLeastCost(a: string, b: string, d: nat)
    ensures d == Dist(a, b) <==>
              && (exists script :: Edits(script, a, b) && Cost(script) == d)
              && (forall script :: Edits(script, a, b) ==> d <= Cost(script))
  {
    var best := Cheapest(a, b);
    forall script | Edits(script, a, b) ensures Dist(a, b) <= Cost(script) {
      Whole(script);
    }
  }

  // -------------------------------------------------------------- corollaries

  function Inverse(e: Edit): Edit {
    match e
    case Keep(c) => Keep(c)
    case Substitute(x, y) => Substitute(y, x)
    case Insert(c) => Delete(c)
    case Delete(c) => Insert(c)
    case Swap(x, y) => Swap(y, x)
  }

  lemma InverseSwapsSides(e: Edit)
    ensures Old(Inverse(e)) == New(e) && New(Inverse(e)) == Old(e) && (Inverse(e).Keep? <==> e.Keep?)
  {
  }

  lemma {:induction false} Undo(script: seq<Edit>) returns (back: seq<Edit>)
    ensures Edits(back, Target(script), Source(script)) && Cost(back) == Cost(script)
  {
    if script == [] {
      back := [];
    } else {
      var front, e := script[..|script| - 1], script[|script| - 1];
      var rest := Undo(front);
      InverseSwapsSides(e);
      Extend(rest, Inverse(e), Target(front), Source(front));
      back := rest + [Inverse(e)];
    }
  }

  lemma Symmetric(a: string, b: string)
    ensures Dist(a, b) == Dist(b, a)
  {
    var there := Cheapest(a, b);
    var back := Undo(there);
    Whole(back);
    there := Cheapest(b, a);
    back := Undo(there);
    Whole(back);
  }

  lemma {:induction false} FreeChangesNothing(script: seq<Edit>)
    requires Cost(script) == 0
    ensures Source(script) == Target(script)
  {
    if script != [] {
      FreeChangesNothing(script[..|script| - 1]);
    }
  }

  lemma {:induction false} ToItself(a: string, i: nat)
    requires i <= |a|
    ensures Prefixes(a, a, i, i) == 0
  {
    if i > 0 {
      ToItself(a, i - 1);
    }
  }

  lemma ZeroIffEqual(a: string, b: string)
    ensures Dist(a, b) == 0 <==> a == b
  {
    ToItself(a, |a|);
    var script := Cheapest(a, b);
    if Cost(script) == 0 {
      FreeChangesNothing(script);
    }
  }

  /** d is between the difference of two lengths and the longer. */
  predicate Between(i: nat, j: nat, d: nat) {
    i - j <= d && j - i <= d && d <= Max(i, j)
  }

  lemma BetweenStep(i: nat, j: nat, d: nat, del: nat, ins: nat, sub: nat)
    requires i > 0 && j > 0 && Between(i - 1, j, del) && Between(i, j - 1, ins) && Between(i - 1, j - 1, sub)
    requires d <= sub + 1 && (d == del + 1 || d == ins + 1 || d == sub || d == sub + 1)
    ensures Between(i, j, d)
  {
  }

  lemma BetweenSwap(i: nat, j: nat, d: nat, sub: nat, swap: nat)
    requires i > 1 && j > 1 && Between(i - 1, j - 1, sub) && Between(i - 2, j - 2, swap)
    requires d <= sub + 1 && d == swap + 1
    ensures Between(i, j, d)
  {
  }

  lemma {:induction false} PrefixBounds(a: string, b: string, t: Table, i: nat, j: nat)
    requires IsTable(a, b, t) && i <= |a| && j <= |b|
    ensures Between(i, j, t(i, j))
    decreases i + j
  {
    assert Cell(a, b, t, i, j);
    if i > 0 && j > 0 {
      PrefixBounds(a, b, t, i - 1, j);
      PrefixBounds(a, b, t, i, j - 1);
      PrefixBounds(a, b, t, i - 1, j - 1);
      if Swapped(a, b, i, j) && t(i, j) == t(i - 2, j - 2) + 1 {
        PrefixBounds(a, b, t, i - 2, j - 2);
        BetweenSwap(i, j, t(i, j), t(i - 1, j - 1), t(i - 2, j - 2));
      } else {
        BetweenStep(i, j, t(i, j), t(i - 1, j), t(i, j - 1), t(i - 1, j - 1));
      }
    }
  }

  /** Between the difference of the lengths and the longer of them. */
  lemma Bounds(a: string, b: string)
    ensures |a| - |b| <= Dist(a, b) && |b| - |a| <= Dist(a, b) <= Max(|a|, |b|)
  {
    TableOfIsTable(a, b);
    PrefixBounds(a, b, TableOf(a, b), |a|, |b|);
  }

  lemma ThreeEdits(a: string, b: string, t: Table)
    requires |a| == 2 && |b| == 3 && a[0] == b[2] && a[1] == b[0] && a[0] != a[1] && b[1] != a[0] && b[1] != a[1]
    requires IsTable(a, b, t)
    ensures t(2, 3) == 3
  {
    assert Cell(a, b, t, 0, 0) && Cell(a, b, t, 0, 1) && Cell(a, b, t, 0, 2) && Cell(a, b, t, 0, 3);
    assert Cell(a, b, t, 1, 0) && Cell(a, b, t, 1, 1) && Cell(a, b, t, 1, 2) && Cell(a, b, t, 1, 3);
    assert t(1, 1) == 1 && t(1, 2) == 2 && t(1, 3) == 2;
    assert Cell(a, b, t, 2, 0) && Cell(a, b, t, 2, 1) && Cell(a, b, t, 2, 2) && Cell(a, b, t, 2, 3);
  }

  lemma OneSwap(a: string, b: string, t: Table)
    requires |a| == 2 && |b| == 2 && a[0] == b[1] && a[1] == b[0] && IsTable(a, b, t)
    ensures t(2, 2) <= 1
  {
    assert Cell(a, b, t, 0, 0) && Cell(a, b, t, 2, 2) && Swapped(a, b, 2, 2);
  }

  lemma OneInsert(a: string, b: string, t: Table)
    requires |a| == 2 && |b| == 3 && a[0] == b[0] && a[1] == b[2] && IsTable(a, b, t)
    ensures t(2, 3) <= 1
  {
    assert Cell(a, b, t, 0, 0) && Cell(a, b, t, 1, 1) && Cell(a, b, t, 1, 2) && Cell(a, b, t, 2, 3);
  }

  /**
   * Edits do not overlap, so going by way of a third string can be cheaper (ca,
   * ac, abc): the distance is no metric.
   */
  lemma NoTriangleInequality(a: string, b: string, c: string)
    requires |a| == 2 && |b| == 2 && |c| == 3 && b[0] == c[0] == a[1] && b[1] == c[2] == a[0]
    requires a[0] != a[1] && c[1] != a[0] && c[1] != a[1]
    ensures Dist(a, c) > Dist(a, b) + Dist(b, c)
  {
    TableOfIsTable(a, c);
    ThreeEdits(a, c, TableOf(a, c));
    TableOfIsTable(a, b);
    OneSwap(a, b, TableOf(a, b));
    TableOfIsTable(b, c);
    OneInsert(b, c, TableOf(b, c));
  }

  // ----------------------------------------------------------------- closest

  predicate HasPrefix(s: string, prefix: string) {
    prefix <= s
  }

  /** How far a candidate is, with a bonus for continuing the input; both are in lower case. */
  function Score(input: string, candidate: string): int {
    var d := Dist(input, candidate);
    if HasPrefix(candidate, input) && d > 1 then d - 1 else d
  }

  lemma {:induction false} NoEditOnDiagonal(a: string, b: string, t: Table, k: nat)
    requires IsTable(a, b, t) && a <= b && k <= |a|
    ensures t(k, k) == 0
  {
    assert Cell(a, b, t, k, k);
    if k > 0 {
      NoEditOnDiagonal(a, b, t, k - 1);
    }
  }

  lemma {:induction false} OnlyInsertions(a: string, b: string, t: Table, j: nat)
    requires IsTable(a, b, t) && a <= b && |a| <= j <= |b|
    ensures t(|a|, j) <= j - |a|
  {
    assert Cell(a, b, t, |a|, j);
    if j == |a| {
      NoEditOnDiagonal(a, b, t, j);
    } else {
      OnlyInsertions(a, b, t, j - 1);
    }
  }

  /** A candidate that continues the input is as far as it is longer, less one if that is more than one character. */
  lemma ScoreMeans(input: string, candidate: string)
    ensures !(input <= candidate) ==> Score(input, candidate) == Dist(input, candidate)
    ensures input <= candidate ==>
              var longer := |candidate| - |input|; Score(input, candidate) == if longer >= 2 then longer - 1 else longer
  {
    if input <= candidate {
      TableOfIsTable(input, candidate);
      OnlyInsertions(input, candidate, TableOf(input, candidate), |candidate|);
      Bounds(input, candidate);
    }
  }

  /** candidates[k] is the first of the closest, and no farther than limit. */
  ghost predicate IsClosest(input: string, candidates: seq<string>, lower: string -> string, limit: int, k: nat) {
    && k < |candidates| && Score(lower(input), lower(candidates[k])) <= limit
    && (forall j :: 0 <= j < |candidates| ==>
          Score(lower(input), lower(candidates[k])) <= Score(lower(input), lower(candidates[j])))
    && (forall j :: 0 <= j < k ==>
          Score(lower(input), lower(candidates[k])) < Score(lower(input), lower(candidates[j])))
  }

  ghost predicate NoneIsClose(input: string, candidates: seq<string>, lower: string -> string, limit: int) {
    forall j :: 0 <= j < |candidates| ==> Score(lower(input), lower(candidates[j])) > limit
  }

  /**
   * closest: the first of the closest candidates, or nothing if none is close
   * enough for the length of the input; lower is strings.ToLower.
   */
  method Closest(input: string, candidates: seq<string>, lower: string -> string) returns (r: string)
    ensures input == "" ==> r == ""
    ensures input != "" ==>
              var limit := if |input| <= 3 then 1 else if |input| <= 6 then 2 else 3;
              (if NoneIsClose(input, candidates, lower, limit) then r == ""
               else exists k: nat :: IsClosest(input, candidates, lower, limit, k) && r == candidates[k])
  {
    if |candidates| == 0 || input == "" {
      return "";
    }
    var low := lower(input);
    var best, bestDist := "", 999;
    ghost var at := 0;
    for i := 0 to |candidates|
      invariant bestDist <= 999 && (bestDist == 999 ==> best == "")
      invariant forall j :: 0 <= j < i ==> bestDist <= Score(low, lower(candidates[j]))
      invariant bestDist < 999 ==>
                  && 0 <= at < i && best == candidates[at] && bestDist == Score(low, lower(candidates[at]))
                  && forall j :: 0 <= j < at ==> bestDist < Score(low, lower(candidates[j]))
    {
      var d := DamerauLevenshtein(low, lower(candidates[i]));
      if HasPrefix(lower(candidates[i]), low) && d > 1 {
        d := d - 1;
      }
      if d < bestDist {
        bestDist := d;
        best := candidates[i];
        at := i;
      }
    }
    var threshold := 2;
    if |input| > 6 {
      threshold := 3;
    }
    if |input| <= 3 && bestDist > 1 {
      return "";
    }
    if bestDist <= threshold {
      assert IsClosest(input, candidates, lower, if |input| <= 3 then 1 else threshold, at);
      return best;
    }
    return "";
  }
}
