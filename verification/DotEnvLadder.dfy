/**
 * The longest chains of references that the passes of config/dotenv.go expand
 * when every name is expandable: each pass doubles what a reference spans.
 */
module DotEnvLadder {
  import opened Basics
  import opened DotEnv
  import opened DotEnvDepth

  /** Name i refers to the name span places on, and to nothing near the end. */
  predicate Rung(E: Values, names: seq<string>, span: nat, i: nat)
    requires i < |names|
  {
    if i + span < |names| then At(E, names[i]) == [Ref(names[i + span])] else !HasRef(At(E, names[i]))
  }

  predicate Ladder(E: Values, names: seq<string>, span: nat) {
    forall i :: 0 <= i < |names| ==> Rung(E, names, span, i)
  }

  /** A pass has visited the first names. */
  predicate Climbing(E: Values, names: seq<string>, span: nat, visited: nat) {
    forall i :: 0 <= i < |names| ==> RungNow(E, names, span, visited, i)
  }

  predicate RungNow(E: Values, names: seq<string>, span: nat, visited: nat, i: nat)
    requires i < |names|
  {
    Rung(E, names, if i < visited then 2 * span else span, i)
  }

  lemma {:induction false} SubstPlain(v: Value, E: Values)
    requires !HasRef(v)
    ensures Subst(v, E) == v
  {
    if v != [] {
      assert v[0].Lit?;
      assert forall i :: 0 <= i < |v[1..]| ==> v[1..][i] == v[i + 1];
      SubstPlain(v[1..], E);
    }
  }

  lemma ClimbOne(E: Values, names: seq<string>, span: nat, i: nat)
    requires Distinct(names) && span > 0 && i < |names| && Climbing(E, names, span, i)
    ensures Climbing(Update(E, names[i]), names, span, i + 1)
  {
    var E', v := Update(E, names[i]), At(E, names[i]);
    assert RungNow(E, names, span, i, i);
    if i + span < |names| {
      assert v[1..] == [] && Subst(v, E) == At(E, names[i + span]) + [];
      assert RungNow(E, names, span, i, i + span);
    } else {
      SubstPlain(v, E);
    }
    var visited := i + 1;
    forall j | 0 <= j < |names| ensures RungNow(E', names, span, visited, j) {
      assert RungNow(E, names, span, i, j);
      assert j != i ==> names[j] != names[i];
    }
  }

  lemma {:induction false} PassDoubles(E: Values, names: seq<string>, span: nat, i: nat)
    requires Distinct(names) && span > 0 && i <= |names| && Climbing(E, names, span, i)
    ensures Ladder(SubstPass(E, names[i..]), names, 2 * span)
    decreases |names| - i
  {
    if i == |names| {
      forall j | 0 <= j < |names| ensures Rung(E, names, 2 * span, j) {
        assert RungNow(E, names, span, i, j);
      }
    } else {
      assert names[i..][1..] == names[i + 1..];
      ClimbOne(E, names, span, i);
      PassDoubles(Update(E, names[i]), names, span, i + 1);
    }
  }

  lemma LadderHasRef(E: Values, names: seq<string>, span: nat)
    requires Ladder(E, names, span)
    ensures SomeRef(E, names) <==> span < |names|
  {
    if span < |names| {
      assert Rung(E, names, span, 0);
      assert At(E, names[0])[0].Ref?;
    }
    if i :| 0 <= i < |names| && HasRef(At(E, names[i])) {
      assert Rung(E, names, span, i);
    }
  }

  lemma LadderDoubles(E: Values, names: seq<string>, span: nat)
    requires Distinct(names) && span > 0 && Ladder(E, names, span)
    ensures Ladder(SubstPass(E, names), names, 2 * span)
  {
    forall i | 0 <= i < |names| ensures RungNow(E, names, span, 0, i) {
      assert Rung(E, names, span, i);
    }
    assert names[0..] == names;
    PassDoubles(E, names, span, 0);
  }

  lemma {:induction false} PowerGrows(k: nat, m: nat)
    requires k <= m
    ensures Power2(k) <= Power2(m)
    decreases m - k
  {
    if k < m {
      PowerGrows(k, m - 1);
    }
  }

  lemma {:induction false} LadderPasses(E: Values, names: seq<string>, k: nat, n: nat)
    requires Distinct(names) && Ladder(E, names, Power2(k))
    ensures SubstPasses(E, names, n).Some? <==> |names| <= Power2(k + n)
    decreases n
  {
    if n == 0 {
      LadderHasRef(E, names, Power2(k));
    } else {
      var next := SubstPass(E, names);
      LadderDoubles(E, names, Power2(k));
      LadderHasRef(next, names, Power2(k + 1));
      if SomeRef(next, names) {
        LadderPasses(next, names, k + 1, n - 1);
      } else {
        PowerGrows(k + 1, k + n);
      }
    }
  }

  /** How deep a ladder is: one level for each name on the way to the end. */
  lemma {:induction false} LadderDepth(E: Values, names: seq<string>, i: nat, h: nat)
    requires Ladder(E, names, 1) && i < |names|
    ensures AtMost(E, At(E, names[i]), h) <==> |names| - 1 - i <= h
    decreases |names| - i
  {
    assert Rung(E, names, 1, i);
    var v := At(E, names[i]);
    if i + 1 < |names| {
      assert v[0] == Ref(names[i + 1]);
      if h > 0 {
        LadderDepth(E, names, i + 1, h - 1);
      }
    }
  }

  /** A chain visited from its head expands in n passes if and only if it is no deeper than 2^n - 1. */
  lemma LadderExpandsExactly(E0: Values, names: seq<string>, n: nat)
    requires AllClean(E0) && Distinct(names) && names != [] && Ladder(E0, names, 1)
    ensures Passes(TextOf(E0), names, n).Ok? <==> AtMost(E0, At(E0, names[0]), Power2(n) - 1)
  {
    LadderPasses(E0, names, 0, n);
    PassesAreSubstPasses(E0, names, n);
    LadderDepth(E0, names, 0, Power2(n) - 1);
  }

  // ------------------------------------------------------------ and there is one

  /** A, AA, AAA and so on: in this order when sorted. */
  function Name(i: nat): (name: string)
    ensures |name| == i + 1 && IsKey(name)
  {
    seq(i + 1, _ => 'A')
  }

  function Names(count: nat): (names: seq<string>)
    ensures |names| == count && Distinct(names)
    ensures forall i :: 0 <= i < count ==> names[i] == Name(i)
  {
    seq(count, i requires 0 <= i < count => Name(i))
  }

  /** The first names of a ladder of count. */
  function FirstRungs(count: nat, i: nat): (E: Values)
    requires i <= count
    ensures AllClean(E) && E.Keys == set j: nat | j < i :: Name(j)
    ensures forall j: nat :: j < i ==> At(E, Name(j)) == if j < count - 1 then [Ref(Name(j + 1))] else []
  {
    if i == 0 then map[]
    else
      var v := if i < count then [Ref(Name(i))] else [];
      assert Clean(v);
      FirstRungs(count, i - 1)[Name(i - 1) := v]
  }

  /** A ladder of any length, every name of which is expandable. */
  lemma SomeLadder(count: nat) returns (E0: Values, names: seq<string>)
    ensures AllClean(E0) && Distinct(names) && |names| == count && AllExpandable(E0, names) && Ladder(E0, names, 1)
  {
    E0, names := FirstRungs(count, count), Names(count);
    forall i | 0 <= i < count ensures Rung(E0, names, 1, i) {
      var next := i + 1;
      assert names[i] == Name(i) && (next < count ==> names[next] == Name(next));
    }
    forall name | name in E0 ensures name in names {
      var j: nat :| j < count && name == Name(j);
      assert names[j] == name;
    }
  }

  /** n passes do not always expand depth 2^n, though every name is expandable. */
  lemma DepthBoundIsSharp(n: nat) returns (E0: Values, names: seq<string>)
    ensures AllClean(E0) && Distinct(names) && AllExpandable(E0, names)
    ensures forall i :: 0 <= i < |names| ==> AtMost(E0, At(E0, names[i]), Power2(n))
    ensures Passes(TextOf(E0), names, n) == Err(TooDeep)
  {
    E0, names := SomeLadder(Power2(n) + 1);
    LadderPasses(E0, names, 0, n);
    PassesAreSubstPasses(E0, names, n);
    forall i | 0 <= i < |names| ensures AtMost(E0, At(E0, names[i]), Power2(n)) {
      LadderDepth(E0, names, i, Power2(n));
    }
  }
}
