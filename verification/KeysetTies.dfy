/**
 * Keyset pagination and ties (orm/cursor.go): the pages of whole runs are the
 * table exactly when the keys tell any two rows of the result apart.
 */
module KeysetTies {
  import opened Basics
  import opened Predicates
  import opened Query
  import opened Keyset

  /** Of two matching rows some column decides, and no NULL stands before or in it. */
  ghost predicate NeverTie<R>(t: Table<R>, where: Node) {
    forall i, j :: 0 <= i < j < |t.rows| && Matches(where, t.view(t.rows[i])) && Matches(where, t.view(t.rows[j])) ==>
      KeysApart(t, i, j)
  }

  /** Whatever the page size, the pages of a run make up the complete result. */
  ghost predicate PagesRightly<R(!new)>(t: Table<R>, where: Node) {
    forall n: nat, results: seq<seq<R>> :: IsRun(t, where, where, n, results) ==> IsResult(t, where, AllPages(results, n))
  }

  // ------------------------------------------------- without ties: sufficient

  /** The table of the matching rows only. */
  function Matching<R>(t: Table<R>, where: Node): Table<R> {
    t.(rows := Select(t.rows, t.view, where))
  }

  /** Rows are selected in table order, each from a place of its own. */
  lemma {:induction false} SelectedFrom<R>(rows: seq<R>, view: R -> Row, where: Node, i: nat, j: nat) returns (p: nat, q: nat)
    requires i <= j < |Select(rows, view, where)|
    ensures p <= q < |rows| && rows[p] == Select(rows, view, where)[i] && rows[q] == Select(rows, view, where)[j]
    ensures i < j ==> p < q
    ensures Matches(where, view(rows[p])) && Matches(where, view(rows[q]))
  {
    if !Matches(where, view(rows[0])) {
      p, q := SelectedFrom(rows[1..], view, where, i, j);
      p, q := p + 1, q + 1;
    } else if i > 0 {
      p, q := SelectedFrom(rows[1..], view, where, i - 1, j - 1);
      p, q := p + 1, q + 1;
    } else if j > 0 {
      p, q := SelectedFrom(rows[1..], view, where, j - 1, j - 1);
      p, q := 0, q + 1;
    } else {
      p, q := 0, 0;
    }
  }

  lemma MatchingIsKeyed<R>(t: Table<R>, where: Node)
    requires HasKeys(Matching(t, where)) && NeverTie(t, where)
    ensures Keyed(Matching(t, where))
  {
    var m := Matching(t, where);
    forall i, j | 0 <= i < j < |m.rows| ensures KeysApart(m, i, j) {
      var p, q := SelectedFrom(t.rows, t.view, where, i, j);
      assert KeysApart(t, p, q);
    }
  }

  /** now lets only rows through that where lets through. */
  ghost predicate Stricter<R>(t: Table<R>, where: Node, now: Node) {
    forall i :: 0 <= i < |t.rows| ==> (Matches(now, t.view(t.rows[i])) ==> Matches(where, t.view(t.rows[i])))
  }

  /** A stricter predicate selects the same from the matching rows as from all. */
  lemma SameResults<R>(t: Table<R>, where: Node, now: Node, out: seq<R>)
    requires Stricter(t, where, now)
    ensures IsResult(t, now, out) <==> IsResult(Matching(t, where), now, out)
  {
    var p := (r: R) => Matches(where, t.view(r));
    var q := (r: R) => Matches(now, t.view(r));
    FilterTwice(t.rows, p, q);
    FilterCongruent(t.rows, (r: R) => p(r) && q(r), q);
  }

  lemma NextIsStricter<R>(t: Table<R>, where: Node, last: R)
    requires |t.cols| == |t.mark(last)|
    ensures Stricter(t, where, AfterRow(t, where, last))
  {
    forall i | 0 <= i < |t.rows|
      ensures Matches(AfterRow(t, where, last), t.view(t.rows[i])) ==> Matches(where, t.view(t.rows[i]))
    {
      AddWhereMatches(where, After(t.cols, t.mark(last), t.desc), t.view(t.rows[i]));
    }
  }

  lemma RunStarts<R>(t: Table<R>, where: Node, now: Node, n: nat, results: seq<seq<R>>)
    requires results != []
    ensures |results[0]| < n ==> (IsRun(t, where, now, n, results) <==> IsResult(t, now, results[0]) && |results| == 1)
    ensures |results[0]| >= n && !(n > 0 && |t.cols| == |t.mark(results[0][n - 1])|) ==> !IsRun(t, where, now, n, results)
    ensures |results[0]| >= n > 0 && |t.cols| == |t.mark(results[0][n - 1])| ==>
              (IsRun(t, where, now, n, results) <==>
                 IsResult(t, now, results[0]) && IsRun(t, where, AfterRow(t, where, results[0][n - 1]), n, results[1..]))
  {
  }

  /** Pages never see the rows that the predicate excludes. */
  lemma {:induction false} SameRun<R>(t: Table<R>, where: Node, now: Node, n: nat, results: seq<seq<R>>)
    requires Stricter(t, where, now)
    ensures IsRun(t, where, now, n, results) <==> IsRun(Matching(t, where), where, now, n, results)
    decreases |results|
  {
    if results != [] {
      SameResults(t, where, now, results[0]);
      RunStarts(t, where, now, n, results);
      RunStarts(Matching(t, where), where, now, n, results);
      if |results[0]| >= n > 0 && |t.cols| == |t.mark(results[0][n - 1])| {
        NextIsStricter(t, where, results[0][n - 1]);
        SameRun(t, where, AfterRow(t, where, results[0][n - 1]), n, results[1..]);
      }
    }
  }

  lemma SamePages<R(!new)>(t: Table<R>, where: Node)
    ensures PagesRightly(t, where) <==> PagesRightly(Matching(t, where), where)
  {
    forall n: nat, results: seq<seq<R>>
      ensures IsRun(t, where, where, n, results) <==> IsRun(Matching(t, where), where, where, n, results)
      ensures IsResult(t, where, AllPages(results, n)) <==> IsResult(Matching(t, where), where, AllPages(results, n))
    {
      SameRun(t, where, where, n, results);
      SameResults(t, where, where, AllPages(results, n));
    }
  }

  lemma WithoutTiesIsRight<R(!new)>(t: Table<R>, where: Node)
    requires Keyed(t)
    ensures PagesRightly(t, where)
  {
    forall n: nat, results: seq<seq<R>> | IsRun(t, where, where, n, results)
      ensures IsResult(t, where, AllPages(results, n))
    {
      RunFromPosition(t, where, where, n, results);
    }
  }

  // ------------------------------------------------------- every run can be had

  /** x goes in front of the first row it does not come after. */
  function Insert<R>(t: Table<R>, s: seq<R>, x: R): seq<R> {
    if s == [] || !OrderAfter(t.key(x), t.key(s[0]), t.desc) then [x] + s else [s[0]] + Insert(t, s[1..], x)
  }

  ghost predicate SameLength<R>(t: Table<R>, s: seq<R>) {
    forall i :: 0 <= i < |s| ==> |t.key(s[i])| == |t.cols|
  }

  lemma {:induction false} InsertKeepsOrder<R>(t: Table<R>, s: seq<R>, x: R)
    requires Ordered(t, s) && SameLength(t, s) && |t.key(x)| == |t.cols|
    ensures Ordered(t, Insert(t, s, x)) && SameLength(t, Insert(t, s, x))
    ensures multiset(Insert(t, s, x)) == multiset(s) + multiset{x}
  {
    if s != [] {
      var head, tail := s[0], s[1..];
      assert s == [head] + tail;
      if OrderAfter(t.key(x), t.key(head), t.desc) {
        InsertKeepsOrder(t, tail, x);
        var rest := Insert(t, tail, x);
        forall j | 0 <= j < |rest| ensures !OrderAfter(t.key(head), t.key(rest[j]), t.desc) {
          assert rest[j] in multiset(rest);
          OrderAsymmetric(t.key(head), t.key(x), t.desc);
          if rest[j] != x {
            assert rest[j] in tail;
          }
        }
        FrontOfOrder(t, head, rest);
      } else {
        forall j | 0 <= j < |s| ensures !OrderAfter(t.key(x), t.key(s[j]), t.desc) {
          OrderTotal(t.key(head), t.key(s[j]), t.desc);
          OrderTransitive(t.key(x), t.key(s[j]), t.key(head), t.desc);
        }
        FrontOfOrder(t, x, s);
      }
    }
  }

  lemma FrontOfOrder<R>(t: Table<R>, x: R, s: seq<R>)
    requires Ordered(t, s) && forall j :: 0 <= j < |s| ==> !OrderAfter(t.key(x), t.key(s[j]), t.desc)
    ensures Ordered(t, [x] + s)
  {
  }

  /** The statement has a result: its rows can be put in order. */
  lemma {:induction false} SomeOrder<R>(t: Table<R>, s: seq<R>) returns (out: seq<R>)
    requires SameLength(t, s)
    ensures Ordered(t, out) && SameLength(t, out) && multiset(out) == multiset(s)
  {
    if s == [] {
      out := [];
    } else {
      var rest := SomeOrder(t, s[1..]);
      InsertKeepsOrder(t, rest, s[0]);
      assert s == [s[0]] + s[1..];
      out := Insert(t, rest, s[0]);
    }
  }

  lemma SomeResult<R>(t: Table<R>, now: Node) returns (out: seq<R>)
    requires HasKeys(t)
    ensures IsResult(t, now, out)
  {
    var s := Select(t.rows, t.view, now);
    forall i | 0 <= i < |s| ensures |t.key(s[i])| == |t.cols| {
      var p, _ := SelectedFrom(t.rows, t.view, now, i, i);
      assert RowsCompare(t, p, p);
    }
    out := SomeOrder(t, s);
  }

  lemma {:induction false} FilterShrinks<R>(s: seq<R>, p: R -> bool, q: R -> bool)
    requires forall i :: 0 <= i < |s| && p(s[i]) ==> q(s[i])
    ensures |Filter(s, p)| <= |Filter(s, q)|
    ensures (exists i :: 0 <= i < |s| && q(s[i]) && !p(s[i])) ==> |Filter(s, p)| < |Filter(s, q)|
  {
    if s != [] {
      FilterShrinks(s[1..], p, q);
      if i :| 0 <= i < |s| && q(s[i]) && !p(s[i]) {
        assert i > 0 ==> s[1..][i - 1] == s[i];
      }
    }
  }

  /** The next page has fewer rows to choose from. */
  lemma NextHasFewer<R>(t: Table<R>, where: Node, now: Node, full: seq<R>, i: nat)
    requires HasKeys(t) && IsPosition(t, where, now) && IsResult(t, now, full) && i < |full|
    ensures |t.cols| == |t.mark(full[i])| && IsPosition(t, where, AfterRow(t, where, full[i]))
    ensures |Select(t.rows, t.view, AfterRow(t, where, full[i]))| < |Select(t.rows, t.view, now)|
  {
    ResultMembers(t, now, full, full[i]);
    var last :| 0 <= last < |t.rows| && t.rows[last] == full[i];
    AfterMeans(t, last, last);
    assert StartsAfter(t, where, AfterRow(t, where, full[i]), last);
    var p := (r: R) => Matches(AfterRow(t, where, full[i]), t.view(r));
    var q := (r: R) => Matches(now, t.view(r));
    forall b | 0 <= b < |t.rows| && p(t.rows[b]) ensures q(t.rows[b]) {
      LaterCursorImpliesEarlier(t, where, now, last, b);
    }
    PositionMeans(t, where, last, last);
    LexAsymmetric(t.key(t.rows[last]), t.key(t.rows[last]), t.desc);
    FilterShrinks(t.rows, p, q);
  }

  /** From any position there is a run to the end. */
  lemma {:induction false} SomeRun<R>(t: Table<R>, where: Node, now: Node, n: nat) returns (results: seq<seq<R>>)
    requires HasKeys(t) && IsPosition(t, where, now) && n > 0
    ensures IsRun(t, where, now, n, results)
    decreases |Select(t.rows, t.view, now)|
  {
    var full := SomeResult(t, now);
    if |full| < n {
      results := [full];
    } else {
      NextHasFewer(t, where, now, full, n - 1);
      var rest := SomeRun(t, where, AfterRow(t, where, full[n - 1]), n);
      results := [full] + rest;
      assert results[1..] == rest;
    }
  }

  // ----------------------------------------------------- with ties: necessary

  /** What a run reads from a position on lies after that position. */
  lemma {:induction false} PagesMatch<R>(t: Table<R>, where: Node, now: Node, n: nat, results: seq<seq<R>>, x: R)
    requires HasKeys(t) && IsPosition(t, where, now) && IsRun(t, where, now, n, results) && x in AllPages(results, n)
    ensures x in t.rows && Matches(now, t.view(x))
    decreases |results|
  {
    var full, rest := results[0], results[1..];
    if x in FirstRows(full, n) {
      ResultMembers(t, now, full, x);
    } else if |full| >= n {
      NextHasFewer(t, where, now, full, n - 1);
      PagesMatch(t, where, AfterRow(t, where, full[n - 1]), n, rest, x);
      ResultMembers(t, now, full, full[n - 1]);
      var last :| 0 <= last < |t.rows| && t.rows[last] == full[n - 1];
      var b :| 0 <= b < |t.rows| && t.rows[b] == x;
      LaterCursorImpliesEarlier(t, where, now, last, b);
    }
  }

  lemma {:induction false} TwoPlaces<R>(s: seq<R>, x: R) returns (p: nat, q: nat)
    requires multiset(s)[x] >= 2
    ensures p < q < |s| && s[p] == s[q] == x
  {
    assert s == [s[0]] + s[1..];
    if s[0] == x {
      assert x in multiset(s[1..]);
      q :| 0 < q < |s| && s[q] == x;
      p := 0;
    } else {
      p, q := TwoPlaces(s[1..], x);
      p, q := p + 1, q + 1;
    }
  }

  lemma {:induction false} SelectedTwice<R>(rows: seq<R>, view: R -> Row, where: Node, i: nat, j: nat)
    requires i < j < |rows| && rows[i] == rows[j] && Matches(where, view(rows[i]))
    ensures multiset(Select(rows, view, where))[rows[i]] >= 2
  {
    FilterCounts(rows, (r: R) => Matches(where, view(r)), rows[i]);
    TwiceInSequence(rows, i, j);
  }

  /** Two matching rows that are not apart stand somewhere in every result, one before the other. */
  lemma TieInResult<R>(t: Table<R>, where: Node, full: seq<R>, i: nat, j: nat) returns (p: nat, q: nat)
    requires IsResult(t, where, full) && i < j < |t.rows| && !KeysApart(t, i, j)
    requires Matches(where, t.view(t.rows[i])) && Matches(where, t.view(t.rows[j]))
    ensures p < q < |full| && !LexAfter(t.key(full[q]), t.key(full[p]), t.desc)
  {
    var a, b := t.key(t.rows[i]), t.key(t.rows[j]);
    ApartIsDecided(a, b, t.desc);
    if t.rows[i] == t.rows[j] {
      SelectedTwice(t.rows, t.view, where, i, j);
      p, q := TwoPlaces(full, t.rows[i]);
      LexAsymmetric(a, a, t.desc);
    } else {
      ResultMembers(t, where, full, t.rows[i]);
      ResultMembers(t, where, full, t.rows[j]);
      var first :| 0 <= first < |full| && full[first] == t.rows[i];
      var second :| 0 <= second < |full| && full[second] == t.rows[j];
      p, q := if first < second then first else second, if first < second then second else first;
    }
  }

  /** A row from behind place n that does not come back later is missing once. */
  lemma LostFrom<R>(s: seq<R>, n: nat, q: nat, later: seq<R>)
    requires n <= q < |s| && s[q] !in later
    ensures multiset(s[..n] + later)[s[q]] < multiset(s)[s[q]]
  {
    assert s == s[..n] + s[n..];
    assert s[n..][q - n] == s[q] && s[q] in multiset(s[n..]);
  }

  /** Once past a row, a run never reads a row that the cursor does not find after it. */
  lemma TieIsPassed<R>(t: Table<R>, where: Node, full: seq<R>, p: nat, x: R, n: nat, rest: seq<seq<R>>)
    requires HasKeys(t) && IsResult(t, where, full) && p < |full| && !LexAfter(t.key(x), t.key(full[p]), t.desc)
    requires |t.cols| == |t.mark(full[p])| && IsPosition(t, where, AfterRow(t, where, full[p]))
    requires IsRun(t, where, AfterRow(t, where, full[p]), n, rest)
    ensures x !in AllPages(rest, n)
  {
    if x in AllPages(rest, n) {
      PagesMatch(t, where, AfterRow(t, where, full[p]), n, rest, x);
      ResultMembers(t, where, full, full[p]);
      var last :| 0 <= last < |t.rows| && t.rows[last] == full[p];
      var b :| 0 <= b < |t.rows| && t.rows[b] == x;
      PositionMeans(t, where, last, b);
    }
  }

  lemma RunOn<R>(t: Table<R>, where: Node, full: seq<R>, n: nat) returns (rest: seq<seq<R>>)
    requires HasKeys(t) && IsResult(t, where, full) && 0 < n <= |full|
    ensures |t.cols| == |t.mark(full[n - 1])| && IsPosition(t, where, AfterRow(t, where, full[n - 1]))
    ensures IsRun(t, where, AfterRow(t, where, full[n - 1]), n, rest)
  {
    NextHasFewer(t, where, where, full, n - 1);
    rest := SomeRun(t, where, AfterRow(t, where, full[n - 1]), n);
  }

  lemma RunWith<R>(t: Table<R>, where: Node, full: seq<R>, n: nat, rest: seq<seq<R>>)
    requires IsResult(t, where, full) && 0 < n <= |full| && |t.cols| == |t.mark(full[n - 1])|
    requires IsRun(t, where, AfterRow(t, where, full[n - 1]), n, rest)
    ensures IsRun(t, where, where, n, [full] + rest)
    ensures AllPages([full] + rest, n) == full[..n] + AllPages(rest, n)
  {
    assert ([full] + rest)[1..] == rest;
  }

  /** The page that ends on row p loses a later row that the cursor does not find after it. */
  lemma RowIsLost<R>(t: Table<R>, where: Node, full: seq<R>, p: nat, q: nat, n: nat, rest: seq<seq<R>>)
    requires HasKeys(t) && IsResult(t, where, full) && p < q < |full| && !LexAfter(t.key(full[q]), t.key(full[p]), t.desc) && n == p + 1
    requires |t.cols| == |t.mark(full[p])| && IsPosition(t, where, AfterRow(t, where, full[p]))
    requires IsRun(t, where, AfterRow(t, where, full[p]), n, rest)
    ensures !IsResult(t, where, full[..n] + AllPages(rest, n))
  {
    TieIsPassed(t, where, full, p, full[q], n, rest);
    LostFrom(full, n, q, AllPages(rest, n));
  }

  /** Pages of p + 1 rows lose row q. */
  lemma SomePageIsLast<R(!new)>(t: Table<R>, where: Node, full: seq<R>, p: nat, q: nat)
    requires HasKeys(t) && IsResult(t, where, full) && p < q < |full| && !LexAfter(t.key(full[q]), t.key(full[p]), t.desc)
    ensures !PagesRightly(t, where)
  {
    var n := p + 1;
    var rest := RunOn(t, where, full, n);
    RunWith(t, where, full, n, rest);
    RowIsLost(t, where, full, p, q, n, rest);
    PagesWrongly(t, where, n, [full] + rest);
  }

  lemma TieIsLost<R(!new)>(t: Table<R>, where: Node, i: nat, j: nat)
    requires HasKeys(Matching(t, where)) && i < j < |t.rows| && !KeysApart(t, i, j)
    requires Matches(where, t.view(t.rows[i])) && Matches(where, t.view(t.rows[j]))
    ensures !PagesRightly(Matching(t, where), where)
  {
    var full := SomeResult(Matching(t, where), where);
    SameResults(t, where, where, full);
    var p, q := TieInResult(t, where, full, i, j);
    SomePageIsLast(Matching(t, where), where, full, p, q);
  }

  lemma PagesWrongly<R(!new)>(t: Table<R>, where: Node, n: nat, results: seq<seq<R>>)
    requires IsRun(t, where, where, n, results) && !IsResult(t, where, AllPages(results, n))
    ensures !PagesRightly(t, where)
  {
  }

  /** Without NULLs in matching rows: exactly when no two of them have one key. */
  lemma NeverTieWithoutNulls<R>(t: Table<R>, where: Node)
    requires forall i :: 0 <= i < |t.rows| && Matches(where, t.view(t.rows[i])) ==>
               |t.key(t.rows[i])| == |t.cols| && NoNulls(t.key(t.rows[i]))
    ensures NeverTie(t, where) <==>
              forall i, j :: 0 <= i < j < |t.rows| && Matches(where, t.view(t.rows[i])) && Matches(where, t.view(t.rows[j])) ==>
                t.key(t.rows[i]) != t.key(t.rows[j])
  {
    forall i, j | 0 <= i < j < |t.rows| && Matches(where, t.view(t.rows[i])) && Matches(where, t.view(t.rows[j]))
      ensures KeysApart(t, i, j) <==> t.key(t.rows[i]) != t.key(t.rows[j])
    {
      ApartWithoutNulls(t.key(t.rows[i]), t.key(t.rows[j]));
    }
  }

  /**
   * All page sizes page correctly if and only if the keys tell any two matching
   * rows apart. Rows that do not match may have any keys, comparable or not.
   */
  lemma PagesRightlyExactly<R(!new)>(t: Table<R>, where: Node)
    requires HasKeys(Matching(t, where))
    ensures PagesRightly(t, where) <==> NeverTie(t, where)
  {
    SamePages(t, where);
    if NeverTie(t, where) {
      MatchingIsKeyed(t, where);
      WithoutTiesIsRight(Matching(t, where), where);
    } else {
      var i, j :| 0 <= i < j < |t.rows| && Matches(where, t.view(t.rows[i])) && Matches(where, t.view(t.rows[j]))
        && !KeysApart(t, i, j);
      TieIsLost(t, where, i, j);
    }
  }
}
