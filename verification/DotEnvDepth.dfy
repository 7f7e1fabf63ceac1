/**
 * What the passes of config/dotenv.go compute: the full recursive expansion,
 * or an error. E0 below always stands for the values as they were written.
 */
module DotEnvDepth {
  import opened Basics
  import opened DotEnv

  // ---------------------------------------------------------- full expansion

  /** Following references from v one meets a value without any within h steps. */
  predicate AtMost(E0: Values, v: Value, h: nat)
    decreases h
  {
    forall i :: 0 <= i < |v| && v[i].Ref? ==> h > 0 && AtMost(E0, At(E0, v[i].name), h - 1)
  }

  /** v with all references expanded, and those that come in with them. */
  function Full(E0: Values, v: Value, h: nat): Value
    requires AtMost(E0, v, h)
    decreases h, |v|
  {
    if v == [] then []
    else
      AtMostTail(E0, v, h);
      (match v[0]
       case Lit(_) => [v[0]]
       case Ref(name) => Full(E0, At(E0, name), h - 1))
      + Full(E0, v[1..], h)
  }

  lemma AtMostTail(E0: Values, v: Value, h: nat)
    requires AtMost(E0, v, h) && v != []
    ensures AtMost(E0, v[1..], h)
    ensures v[0].Ref? ==> h > 0 && AtMost(E0, At(E0, v[0].name), h - 1)
  {
    var tail := v[1..];
    forall i | 0 <= i < |tail| && tail[i].Ref? ensures h > 0 && AtMost(E0, At(E0, tail[i].name), h - 1) {
      assert v[i + 1] == tail[i];
    }
  }

  lemma AtMostConcat(E0: Values, a: Value, b: Value, h: nat)
    ensures AtMost(E0, a + b, h) <==> AtMost(E0, a, h) && AtMost(E0, b, h)
  {
    var v := a + b;
    if AtMost(E0, v, h) {
      forall i | 0 <= i < |a| && a[i].Ref? ensures h > 0 && AtMost(E0, At(E0, a[i].name), h - 1) {
        assert v[i] == a[i];
      }
      forall i | 0 <= i < |b| && b[i].Ref? ensures h > 0 && AtMost(E0, At(E0, b[i].name), h - 1) {
        assert v[|a| + i] == b[i];
      }
    }
  }

  lemma {:induction false} AtMostMore(E0: Values, v: Value, h: nat, k: nat)
    requires AtMost(E0, v, h) && h <= k
    ensures AtMost(E0, v, k)
    decreases h
  {
    forall i | 0 <= i < |v| && v[i].Ref? ensures k > 0 && AtMost(E0, At(E0, v[i].name), k - 1) {
      AtMostMore(E0, At(E0, v[i].name), h - 1, k - 1);
    }
  }

  lemma {:induction false} FullMore(E0: Values, v: Value, h: nat, k: nat)
    requires AtMost(E0, v, h) && AtMost(E0, v, k)
    ensures Full(E0, v, h) == Full(E0, v, k)
    decreases h, |v|
  {
    if v != [] {
      AtMostTail(E0, v, h);
      AtMostTail(E0, v, k);
      FullMore(E0, v[1..], h, k);
      if v[0].Ref? {
        FullMore(E0, At(E0, v[0].name), h - 1, k - 1);
      }
    }
  }

  lemma {:induction false} FullConcat(E0: Values, a: Value, b: Value, h: nat)
    requires AtMost(E0, a, h) && AtMost(E0, b, h)
    ensures AtMost(E0, a + b, h) && Full(E0, a + b, h) == Full(E0, a, h) + Full(E0, b, h)
    decreases |a|
  {
    AtMostConcat(E0, a, b, h);
    if a == [] {
      assert a + b == b;
    } else {
      AtMostTail(E0, a, h);
      assert (a + b)[0] == a[0] && (a + b)[1..] == a[1..] + b;
      FullConcat(E0, a[1..], b, h);
    }
  }

  lemma {:induction false} FullOfPlain(E0: Values, v: Value, h: nat)
    requires !HasRef(v)
    ensures AtMost(E0, v, h) && Full(E0, v, h) == v
    decreases |v|
  {
    if v != [] {
      assert v[0].Lit?;
      var tail := v[1..];
      assert forall i :: 0 <= i < |tail| ==> tail[i] == v[i + 1];
      FullOfPlain(E0, tail, h);
      assert v == [v[0]] + tail;
    }
  }

  lemma {:induction false} FullIsPlain(E0: Values, v: Value, h: nat)
    requires AtMost(E0, v, h)
    ensures !HasRef(Full(E0, v, h))
    decreases h, |v|
  {
    if v != [] {
      AtMostTail(E0, v, h);
      FullIsPlain(E0, v[1..], h);
      if v[0].Ref? {
        FullIsPlain(E0, At(E0, v[0].name), h - 1);
      }
    }
  }

  lemma PlainIsZero(E0: Values, v: Value)
    ensures AtMost(E0, v, 0) <==> !HasRef(v)
  {
  }

  // --------------------------------------- what every moment of a pass keeps

  /** Whatever n has become, it stands for what it stood for at first. */
  predicate Same(E0: Values, E: Values, n: string, h: nat) {
    AtMost(E0, At(E0, n), h) ==> AtMost(E0, At(E, n), h) && Full(E0, At(E, n), h) == Full(E0, At(E0, n), h)
  }

  ghost predicate Faithful(E0: Values, E: Values) {
    forall n, h: nat :: Same(E0, E, n, h)
  }

  function Drop(h: nat, a: nat): nat {
    if h <= a then 0 else h - a
  }

  /** The value of n is at least a levels flatter than it was. */
  ghost predicate Flatter(E0: Values, E: Values, n: string, a: nat) {
    forall h: nat :: IsFlatter(E0, E, n, a, h)
  }

  predicate IsFlatter(E0: Values, E: Values, n: string, a: nat, h: nat) {
    AtMost(E0, At(E0, n), h) ==> AtMost(E0, At(E, n), Drop(h, a))
  }

  /** Expanding did not hide more than d levels. */
  predicate Backed(E0: Values, E: Values, n: string, d: nat, h: nat) {
    AtMost(E0, At(E, n), h) ==> AtMost(E0, At(E0, n), h + d)
  }

  ghost predicate AllBacked(E0: Values, E: Values, d: nat) {
    forall n, h: nat :: Backed(E0, E, n, d, h)
  }

  lemma {:induction false} SubstFull(E0: Values, E: Values, v: Value, h: nat)
    requires Faithful(E0, E) && AtMost(E0, v, h)
    ensures AtMost(E0, Subst(v, E), h) && Full(E0, Subst(v, E), h) == Full(E0, v, h)
    decreases |v|
  {
    if v != [] {
      AtMostTail(E0, v, h);
      SubstFull(E0, E, v[1..], h);
      match v[0]
      case Lit(_) =>
        FullOfPlain(E0, [v[0]], h);
        FullConcat(E0, [v[0]], Subst(v[1..], E), h);
      case Ref(m) =>
        assert Same(E0, E, m, h - 1);
        AtMostMore(E0, At(E, m), h - 1, h);
        FullMore(E0, At(E, m), h - 1, h);
        FullConcat(E0, At(E, m), Subst(v[1..], E), h);
    }
  }

  lemma {:induction false} SubstFlatter(E0: Values, E: Values, v: Value, b: nat, h: nat)
    requires (forall m :: Flatter(E0, E, m, b)) && AtMost(E0, v, h)
    ensures AtMost(E0, Subst(v, E), Drop(h, b + 1))
    decreases |v|
  {
    if v != [] {
      AtMostTail(E0, v, h);
      SubstFlatter(E0, E, v[1..], b, h);
      match v[0]
      case Lit(_) =>
        FullOfPlain(E0, [v[0]], Drop(h, b + 1));
        AtMostConcat(E0, [v[0]], Subst(v[1..], E), Drop(h, b + 1));
      case Ref(m) =>
        assert Flatter(E0, E, m, b);
        assert IsFlatter(E0, E, m, b, h - 1);
        AtMostConcat(E0, At(E, m), Subst(v[1..], E), Drop(h, b + 1));
    }
  }

  lemma {:induction false} SubstBacked(E0: Values, E: Values, v: Value, d: nat, h: nat)
    requires forall i :: 0 <= i < |v| && v[i].Ref? ==> Backed(E0, E, v[i].name, d, h)
    requires AtMost(E0, Subst(v, E), h)
    ensures AtMost(E0, v, h + d + 1)
    decreases |v|
  {
    if v != [] {
      var tail, rest := v[1..], Subst(v[1..], E);
      assert forall i :: 0 <= i < |tail| ==> tail[i] == v[i + 1];
      assert [v[0]] + tail == v;
      if v[0].Lit? {
        AtMostConcat(E0, [v[0]], rest, h);
        FullOfPlain(E0, [v[0]], h + d + 1);
      } else {
        AtMostConcat(E0, At(E, v[0].name), rest, h);
        assert Backed(E0, E, v[0].name, d, h);
        assert AtMost(E0, [v[0]], h + d + 1);
      }
      SubstBacked(E0, E, tail, d, h);
      AtMostConcat(E0, [v[0]], tail, h + d + 1);
    }
  }

  // ---------------------------------------------------- one value, one pass

  function Update(E: Values, k: string): Values {
    E[k := Subst(At(E, k), E)]
  }

  lemma UpdateFaithful(E0: Values, E: Values, k: string)
    requires Faithful(E0, E)
    ensures Faithful(E0, Update(E, k))
  {
    forall n, h: nat ensures Same(E0, Update(E, k), n, h) {
      assert Same(E0, E, n, h);
      if n == k && AtMost(E0, At(E0, k), h) {
        SubstFull(E0, E, At(E, k), h);
      }
    }
  }

  lemma UpdateFlatter(E0: Values, E: Values, k: string, a: nat, b: nat)
    requires Flatter(E0, E, k, a) && forall m :: Flatter(E0, E, m, b)
    ensures Flatter(E0, Update(E, k), k, a + b + 1)
  {
    var E', c := Update(E, k), a + b + 1;
    forall h: nat ensures IsFlatter(E0, E', k, c, h) {
      assert IsFlatter(E0, E, k, a, h);
      if AtMost(E0, At(E0, k), h) {
        SubstFlatter(E0, E, At(E, k), b, Drop(h, a));
      }
    }
  }

  lemma UpdateBacked(E0: Values, E: Values, k: string, d: nat)
    requires AllBacked(E0, E, d)
    ensures AllBacked(E0, Update(E, k), 2 * d + 1)
  {
    var E', e := Update(E, k), 2 * d + 1;
    forall n, h: nat ensures Backed(E0, E', n, e, h) {
      assert Backed(E0, E, n, d, h);
      if AtMost(E0, At(E', n), h) {
        if n == k {
          forall i | 0 <= i < |At(E, k)| && At(E, k)[i].Ref? ensures Backed(E0, E, At(E, k)[i].name, d, h) {
          }
          SubstBacked(E0, E, At(E, k), d, h);
          assert Backed(E0, E, k, d, h + d + 1);
        } else {
          AtMostMore(E0, At(E0, n), h + d, h + 2 * d + 1);
        }
      }
    }
  }

  lemma FlatterLess(E0: Values, E: Values, n: string, a: nat, b: nat)
    requires Flatter(E0, E, n, a) && b <= a
    ensures Flatter(E0, E, n, b)
  {
    forall h: nat ensures IsFlatter(E0, E, n, b, h) {
      assert IsFlatter(E0, E, n, a, h);
      if AtMost(E0, At(E0, n), h) {
        AtMostMore(E0, At(E, n), Drop(h, a), Drop(h, b));
      }
    }
  }

  lemma FlatterAlike(E0: Values, E: Values, E': Values, n: string, a: nat)
    requires Flatter(E0, E, n, a) && At(E', n) == At(E, n)
    ensures Flatter(E0, E', n, a)
  {
    forall h: nat ensures IsFlatter(E0, E', n, a, h) {
      assert IsFlatter(E0, E, n, a, h);
    }
  }

  lemma {:induction false} PassKeepsOthers(E: Values, keys: seq<string>, n: string)
    requires n !in keys
    ensures At(SubstPass(E, keys), n) == At(E, n)
    decreases |keys|
  {
    if keys != [] {
      PassKeepsOthers(Update(E, keys[0]), keys[1..], n);
    }
  }

  lemma {:induction false} PassFaithful(E0: Values, E: Values, keys: seq<string>, d: nat) returns (d': nat)
    requires Faithful(E0, E) && AllBacked(E0, E, d)
    ensures Faithful(E0, SubstPass(E, keys)) && AllBacked(E0, SubstPass(E, keys), d')
    decreases |keys|
  {
    if keys == [] {
      d' := d;
    } else {
      UpdateFaithful(E0, E, keys[0]);
      UpdateBacked(E0, E, keys[0], d);
      d' := PassFaithful(E0, Update(E, keys[0]), keys[1..], 2 * d + 1);
    }
  }

  /** Each value visited falls by one level and by what the values it takes in have fallen, old or new. */
  lemma {:induction false} PassFlattens(E0: Values, E: Values, keys: seq<string>, a: nat, b: nat, k: string)
    requires (forall m :: Flatter(E0, E, m, b)) && b <= a + b + 1
    requires Distinct(keys) && (forall i :: 0 <= i < |keys| ==> Flatter(E0, E, keys[i], a)) && k in keys
    ensures Flatter(E0, SubstPass(E, keys), k, a + b + 1)
    decreases |keys|
  {
    var head, tail := keys[0], keys[1..];
    var E' := Update(E, head);
    UpdateFlatter(E0, E, head, a, b);
    assert head !in tail;
    if k == head {
      PassKeepsOthers(E', tail, head);
      FlatterAlike(E0, E', SubstPass(E, keys), head, a + b + 1);
    } else {
      forall m ensures Flatter(E0, E', m, b) {
        if m == head {
          FlatterLess(E0, E', head, a + b + 1, b);
        } else {
          FlatterAlike(E0, E, E', m, b);
        }
      }
      forall i | 0 <= i < |tail| ensures Flatter(E0, E', tail[i], a) {
        assert tail[i] == keys[i + 1];
        FlatterAlike(E0, E, E', tail[i], a);
      }
      PassFlattens(E0, E', tail, a, b, k);
    }
  }

  // --------------------------------------------------------- what comes out

  lemma Start(E0: Values)
    ensures Faithful(E0, E0) && AllBacked(E0, E0, 0) && forall n :: Flatter(E0, E0, n, 0)
  {
    forall n ensures Flatter(E0, E0, n, 0) {
      forall h: nat ensures IsFlatter(E0, E0, n, 0, h) {
      }
    }
  }

  /** If the passes succeed nothing is left to expand and everything means what it did. */
  lemma {:induction false} PassesSound(E0: Values, E: Values, keys: seq<string>, n: nat, d: nat) returns (d': nat)
    requires Faithful(E0, E) && AllBacked(E0, E, d) && SubstPasses(E, keys, n).Some?
    ensures var R := SubstPasses(E, keys, n).value;
            && Faithful(E0, R) && AllBacked(E0, R, d') && !SomeRef(R, keys)
            && forall m :: m !in keys ==> At(R, m) == At(E, m)
    decreases n
  {
    if n == 0 {
      d' := d;
    } else {
      var next := SubstPass(E, keys);
      d' := PassFaithful(E0, E, keys, d);
      forall m | m !in keys ensures At(next, m) == At(E, m) {
        PassKeepsOthers(E, keys, m);
      }
      if SomeRef(next, keys) {
        d' := PassesSound(E0, next, keys, n - 1, d');
      }
    }
  }

  /** The expanded text of a value that follows references at most h deep. */
  function FullText(E0: Values, k: string, h: nat): string
    requires AtMost(E0, At(E0, k), h)
  {
    Text(Full(E0, At(E0, k), h))
  }

  /** k has become its full recursive expansion. */
  ghost predicate FullyExpanded(E0: Values, env: Env, k: string) {
    exists h: nat :: ExpandedWithin(E0, env, k, h)
  }

  predicate ExpandedWithin(E0: Values, env: Env, k: string, h: nat) {
    AtMost(E0, At(E0, k), h) && Lookup(env, k) == FullText(E0, k, h)
  }

  /**
   * Success is never partial: each expandable value is its full expansion, for
   * which it must be free of cycles, and all others are as they were.
   */
  lemma SuccessIsFullExpansion(E0: Values, keys: seq<string>, n: nat)
    requires AllClean(E0) && Passes(TextOf(E0), keys, n).Ok?
    ensures var env := Passes(TextOf(E0), keys, n).value;
            && (forall k :: k in keys ==> FullyExpanded(E0, env, k))
            && (forall m :: m !in keys ==> Lookup(env, m) == Text(At(E0, m)))
  {
    PassesAreSubstPasses(E0, keys, n);
    Start(E0);
    var d := PassesSound(E0, E0, keys, n, 0);
    var R := SubstPasses(E0, keys, n).value;
    forall k | k in keys ensures FullyExpanded(E0, TextOf(R), k) {
      var i :| 0 <= i < |keys| && keys[i] == k;
      assert !HasRef(At(R, keys[i]));
      PlainIsZero(E0, At(R, k));
      assert Backed(E0, R, k, d, 0) && Same(E0, R, k, d);
      FullOfPlain(E0, At(R, k), d);
      assert ExpandedWithin(E0, TextOf(R), k, d);
    }
  }

  /** How far n passes come, a levels having been dealt with; all says that every name is expandable. */
  function Gain(all: bool, a: nat, n: nat): nat
    decreases n
  {
    if n == 0 then a else Gain(all, if all then 2 * a + 1 else a + 1, n - 1)
  }

  ghost predicate AllExpandable(E0: Values, keys: seq<string>) {
    forall n :: n in E0 ==> n in keys
  }

  /** If every name is expandable every value has fallen as far as the expandable ones. */
  lemma OthersAreUnset(E0: Values, E: Values, keys: seq<string>, a: nat)
    requires AllExpandable(E0, keys) && (forall m :: m !in keys ==> At(E, m) == At(E0, m))
    requires forall i :: 0 <= i < |keys| ==> Flatter(E0, E, keys[i], a)
    ensures forall m :: Flatter(E0, E, m, a)
  {
    forall m ensures Flatter(E0, E, m, a) {
      if m in keys {
        var i :| 0 <= i < |keys| && keys[i] == m;
      } else {
        forall h: nat ensures IsFlatter(E0, E, m, a, h) {
          assert At(E, m) == [];
        }
      }
    }
  }

  lemma FaithfulIsFlatter(E0: Values, E: Values)
    requires Faithful(E0, E)
    ensures forall m :: Flatter(E0, E, m, 0)
  {
    forall m ensures Flatter(E0, E, m, 0) {
      forall h: nat ensures IsFlatter(E0, E, m, 0, h) {
        assert Same(E0, E, m, h);
      }
    }
  }

  /** The values the passes work on, all levels up to a dealt with; all says that every name is expandable. */
  ghost predicate Reduced(E0: Values, E: Values, keys: seq<string>, a: nat, all: bool) {
    && Faithful(E0, E)
    && (forall i :: 0 <= i < |keys| ==> Flatter(E0, E, keys[i], a))
    && (forall m :: m !in keys ==> At(E, m) == At(E0, m))
    && (all ==> AllExpandable(E0, keys))
  }

  lemma NothingLeft(E0: Values, E: Values, keys: seq<string>, a: nat, all: bool)
    requires Reduced(E0, E, keys, a, all)
    requires forall i :: 0 <= i < |keys| ==> AtMost(E0, At(E0, keys[i]), a)
    ensures !SomeRef(E, keys)
  {
    forall i | 0 <= i < |keys| ensures !HasRef(At(E, keys[i])) {
      assert Flatter(E0, E, keys[i], a);
      assert IsFlatter(E0, E, keys[i], a, a);
      PlainIsZero(E0, At(E, keys[i]));
    }
  }

  lemma PassReduces(E0: Values, E: Values, keys: seq<string>, a: nat, d: nat, all: bool)
    requires Reduced(E0, E, keys, a, all) && Distinct(keys) && AllBacked(E0, E, d)
    ensures Reduced(E0, SubstPass(E, keys), keys, if all then 2 * a + 1 else a + 1, all)
  {
    var next, b := SubstPass(E, keys), if all then a else 0;
    FaithfulIsFlatter(E0, E);
    if all {
      OthersAreUnset(E0, E, keys, a);
    }
    forall i | 0 <= i < |keys| ensures Flatter(E0, next, keys[i], a + b + 1) {
      PassFlattens(E0, E, keys, a, b, keys[i]);
    }
    forall m | m !in keys ensures At(next, m) == At(E0, m) {
      PassKeepsOthers(E, keys, m);
    }
    var d' := PassFaithful(E0, E, keys, d);
  }

  lemma {:induction false} PassesSucceed(E0: Values, E: Values, keys: seq<string>, n: nat, a: nat, d: nat, all: bool)
    requires Reduced(E0, E, keys, a, all) && Distinct(keys) && AllBacked(E0, E, d)
    requires forall i :: 0 <= i < |keys| ==> AtMost(E0, At(E0, keys[i]), Gain(all, a, n))
    ensures SubstPasses(E, keys, n).Some?
    decreases n
  {
    if n == 0 {
      NothingLeft(E0, E, keys, a, all);
    } else {
      PassReduces(E0, E, keys, a, d, all);
      var d' := PassFaithful(E0, E, keys, d);
      PassesSucceed(E0, SubstPass(E, keys), keys, n - 1, if all then 2 * a + 1 else a + 1, d', all);
    }
  }

  /** Acyclic references no deeper than there are passes always expand, in whatever order the keys are visited. */
  lemma ShallowAlwaysExpands(E0: Values, keys: seq<string>, n: nat)
    requires AllClean(E0) && Distinct(keys)
    requires forall i :: 0 <= i < |keys| ==> AtMost(E0, At(E0, keys[i]), n)
    ensures Passes(TextOf(E0), keys, n).Ok?
  {
    Start(E0);
    GainOne(0, n);
    PassesSucceed(E0, E0, keys, n, 0, 0, false);
    PassesAreSubstPasses(E0, keys, n);
  }

  lemma {:induction false} GainOne(a: nat, n: nat)
    ensures Gain(false, a, n) == a + n
    decreases n
  {
    if n > 0 {
      GainOne(a + 1, n - 1);
    }
  }

  function Power2(n: nat): (p: nat)
    ensures p > 0
  {
    if n == 0 then 1 else 2 * Power2(n - 1)
  }

  lemma {:induction false} GainTwo(n: nat, a: nat, k: nat)
    requires a + 1 == Power2(k)
    ensures Gain(true, a, n) + 1 == Power2(k + n)
    decreases n
  {
    if n > 0 {
      GainTwo(n - 1, 2 * a + 1, k + 1);
    }
  }

  /** Where every name is expandable values take in what is expanded already: n passes allow a depth of 2^n - 1. */
  lemma DeepExpandsWhenAllExpandable(E0: Values, keys: seq<string>, h: nat, n: nat)
    requires AllClean(E0) && Distinct(keys) && AllExpandable(E0, keys) && h < Power2(n)
    requires forall i :: 0 <= i < |keys| ==> AtMost(E0, At(E0, keys[i]), h)
    ensures Passes(TextOf(E0), keys, n).Ok?
  {
    Start(E0);
    GainTwo(n, 0, 0);
    forall i | 0 <= i < |keys| ensures AtMost(E0, At(E0, keys[i]), Gain(true, 0, n)) {
      AtMostMore(E0, At(E0, keys[i]), h, Gain(true, 0, n));
    }
    PassesSucceed(E0, E0, keys, n, 0, 0, true);
    PassesAreSubstPasses(E0, keys, n);
  }

  // ------------------------------------------------------------------ cycles

  predicate RefersTo(v: Value, name: string) {
    Ref(name) in v
  }

  /** A walk along references that comes back: names i and j of it are the same. */
  predicate ReachesCycle(E0: Values, walk: seq<string>, i: nat, j: nat) {
    && i < j < |walk| && walk[i] == walk[j]
    && forall p :: 0 <= p < |walk| - 1 ==> RefersTo(At(E0, walk[p]), walk[p + 1])
  }

  lemma {:induction false} CycleIsBottomless(E0: Values, walk: seq<string>, i: nat, j: nat, p: nat, h: nat)
    requires ReachesCycle(E0, walk, i, j) && p < j
    ensures !AtMost(E0, At(E0, walk[p]), h)
    decreases h
  {
    var v := At(E0, walk[p]);
    assert RefersTo(v, walk[p + 1]);
    var r :| 0 <= r < |v| && v[r] == Ref(walk[p + 1]);
    if h > 0 {
      CycleIsBottomless(E0, walk, i, j, if p + 1 == j then i else p + 1, h - 1);
    }
  }

  /** An expandable value that leads to a cycle ends in an error, after however many passes. */
  lemma CycleAlwaysFails(E0: Values, keys: seq<string>, n: nat, walk: seq<string>, i: nat, j: nat)
    requires AllClean(E0) && ReachesCycle(E0, walk, i, j) && walk[0] in keys
    ensures Passes(TextOf(E0), keys, n) == Err(TooDeep)
  {
    PassesAreSubstPasses(E0, keys, n);
    if Passes(TextOf(E0), keys, n).Ok? {
      SuccessIsFullExpansion(E0, keys, n);
      var env := Passes(TextOf(E0), keys, n).value;
      assert FullyExpanded(E0, env, walk[0]);
      var h: nat :| ExpandedWithin(E0, env, walk[0], h);
      CycleIsBottomless(E0, walk, i, j, 0, h);
    }
  }

  /** A chain of references longer than h. */
  predicate IsChain(E0: Values, walk: seq<string>) {
    walk != [] && forall p :: 0 <= p < |walk| - 1 ==> RefersTo(At(E0, walk[p]), walk[p + 1])
  }

  lemma {:induction false} DeepHasLongChain(E0: Values, k: string, h: nat) returns (walk: seq<string>)
    requires !AtMost(E0, At(E0, k), h)
    ensures IsChain(E0, walk) && |walk| == h + 2 && walk[0] == k
    decreases h
  {
    var v := At(E0, k);
    var i :| 0 <= i < |v| && v[i].Ref? && !(h > 0 && AtMost(E0, At(E0, v[i].name), h - 1));
    assert RefersTo(v, v[i].name);
    if h == 0 {
      walk := [k, v[i].name];
    } else {
      var rest := DeepHasLongChain(E0, v[i].name, h - 1);
      walk := [k] + rest;
    }
  }

  /** Depth without bound is a cycle, and nothing else. */
  lemma BottomlessIsCycle(E0: Values, k: string)
    requires forall h: nat :: !AtMost(E0, At(E0, k), h)
    ensures exists walk, i, j :: ReachesCycle(E0, walk, i, j) && walk[0] == k
  {
    var n := |E0.Keys|;
    var walk := DeepHasLongChain(E0, k, n);
    var inner := walk[..n + 1];
    forall p | 0 <= p < |inner| ensures inner[p] in E0.Keys {
      assert RefersTo(At(E0, walk[p]), walk[p + 1]);
    }
    if Distinct(inner) {
      DistinctFit(inner, E0.Keys);
    }
    var i, j :| 0 <= i < j < |inner| && inner[i] == inner[j];
    assert walk[i] == walk[j] && ReachesCycle(E0, walk, i, j);
  }

  // --------------------------------------------- where the bound is exact

  /** v refers to names only that are not expandable. */
  predicate LiteralRefs(v: Value, keys: seq<string>) {
    forall i :: 0 <= i < |v| && v[i].Ref? ==> v[i].name !in keys
  }

  predicate LiteralAt(E: Values, keys: seq<string>, n: string) {
    LiteralRefs(At(E, n), keys)
  }

  ghost predicate AllLiteralRefs(E: Values, keys: seq<string>) {
    forall n :: LiteralAt(E, keys, n)
  }

  lemma {:induction false} SubstLiteralRefs(v: Value, E: Values, keys: seq<string>)
    requires AllLiteralRefs(E, keys)
    ensures LiteralRefs(Subst(v, E), keys)
  {
    if v != [] {
      SubstLiteralRefs(v[1..], E, keys);
      if v[0].Ref? {
        assert LiteralAt(E, keys, v[0].name);
      }
    }
  }

  /** A key's value has not lost more than d levels. */
  ghost predicate KeyBacked(E0: Values, E: Values, k: string, d: nat) {
    forall h: nat :: Backed(E0, E, k, d, h)
  }

  /** After d passes, when values that are never rewritten stand below the expandable ones. */
  ghost predicate LiteralState(E0: Values, E: Values, keys: seq<string>) {
    AllLiteralRefs(E, keys) && forall m :: Untouched(E0, E, keys, m)
  }

  predicate Untouched(E0: Values, E: Values, keys: seq<string>, m: string) {
    m !in keys ==> At(E, m) == At(E0, m)
  }

  /** All the keys' values at once. */
  ghost predicate AllKeysBacked(E0: Values, E: Values, keys: seq<string>, d: nat) {
    forall k :: k in keys ==> KeyBacked(E0, E, k, d)
  }

  lemma UpdateLiteralState(E0: Values, E: Values, keys: seq<string>, k: string)
    requires LiteralState(E0, E, keys) && k in keys
    ensures LiteralState(E0, Update(E, k), keys)
  {
    var E' := Update(E, k);
    SubstLiteralRefs(At(E, k), E, keys);
    forall n ensures LiteralAt(E', keys, n) {
      assert LiteralAt(E, keys, n);
    }
    forall m ensures Untouched(E0, E', keys, m) {
      assert Untouched(E0, E, keys, m);
    }
  }

  /** Expanding a value that refers to literal ones hides one level. */
  lemma UpdateLiteral(E0: Values, E: Values, keys: seq<string>, k: string, d: nat)
    requires LiteralState(E0, E, keys) && KeyBacked(E0, E, k, d)
    ensures KeyBacked(E0, Update(E, k), k, d + 1)
  {
    var E', e, v := Update(E, k), d + 1, At(E, k);
    assert LiteralAt(E, keys, k);
    forall h: nat ensures Backed(E0, E', k, e, h) {
      if AtMost(E0, At(E', k), h) {
        forall i | 0 <= i < |v| && v[i].Ref? ensures Backed(E0, E, v[i].name, 0, h) {
          assert Untouched(E0, E, keys, v[i].name);
        }
        SubstBacked(E0, E, v, 0, h);
        assert Backed(E0, E, k, d, h + 1);
      }
    }
  }

  lemma {:induction false} PassLiteral(E0: Values, E: Values, keys: seq<string>, part: seq<string>, d: nat)
    requires LiteralState(E0, E, keys) && Distinct(part) && (forall k :: k in part ==> k in keys)
    requires AllKeysBacked(E0, E, part, d)
    ensures LiteralState(E0, SubstPass(E, part), keys) && AllKeysBacked(E0, SubstPass(E, part), part, d + 1)
    decreases |part|
  {
    if part != [] {
      var head, tail := part[0], part[1..];
      var E', R := Update(E, head), SubstPass(E, part);
      UpdateLiteralState(E0, E, keys, head);
      UpdateLiteral(E0, E, keys, head, d);
      forall k | k in tail ensures KeyBacked(E0, E', k, d) {
        assert k in part && k != head;
        BackedAlike(E0, E, E', k, d);
      }
      PassLiteral(E0, E', keys, tail, d);
      PassKeepsOthers(E', tail, head);
      BackedAlike(E0, E', R, head, d + 1);
    }
  }

  lemma BackedAlike(E0: Values, E: Values, E': Values, n: string, d: nat)
    requires KeyBacked(E0, E, n, d) && At(E', n) == At(E, n)
    ensures KeyBacked(E0, E', n, d)
  {
    forall h: nat ensures Backed(E0, E', n, d, h) {
      assert Backed(E0, E, n, d, h);
    }
  }

  lemma ShallowNow(E0: Values, E: Values, keys: seq<string>, d: nat, k: string)
    requires AllKeysBacked(E0, E, keys, d) && !SomeRef(E, keys) && k in keys
    ensures AtMost(E0, At(E0, k), d)
  {
    var i :| 0 <= i < |keys| && keys[i] == k;
    assert !HasRef(At(E, keys[i])) && KeyBacked(E0, E, k, d);
    PlainIsZero(E0, At(E, k));
    assert Backed(E0, E, k, d, 0);
  }

  lemma {:induction false} LiteralSuccessIsShallow(E0: Values, E: Values, keys: seq<string>, n: nat, d: nat, k: string)
    requires LiteralState(E0, E, keys) && Distinct(keys) && k in keys && AllKeysBacked(E0, E, keys, d)
    requires SubstPasses(E, keys, n).Some?
    ensures AtMost(E0, At(E0, k), d + n)
    decreases n
  {
    if n == 0 {
      ShallowNow(E0, E, keys, d, k);
    } else {
      var next := SubstPass(E, keys);
      PassLiteral(E0, E, keys, keys, d);
      if SomeRef(next, keys) {
        LiteralSuccessIsShallow(E0, next, keys, n - 1, d + 1, k);
      } else {
        ShallowNow(E0, next, keys, d + 1, k);
        AtMostMore(E0, At(E0, k), d + 1, d + n);
      }
    }
  }

  /**
   * Where references lead to values that are never rewritten (single-quoted
   * ones, or the process environment's), n passes allow exactly n levels: the
   * 16 of DotEnvMaxExpansionDepth cannot be improved on.
   */
  lemma LiteralChainsExpandExactly(E0: Values, keys: seq<string>, n: nat)
    requires AllClean(E0) && Distinct(keys) && AllLiteralRefs(E0, keys)
    ensures Passes(TextOf(E0), keys, n).Ok? <==> forall i :: 0 <= i < |keys| ==> AtMost(E0, At(E0, keys[i]), n)
  {
    PassesAreSubstPasses(E0, keys, n);
    if Passes(TextOf(E0), keys, n).Ok? {
      forall k | k in keys ensures KeyBacked(E0, E0, k, 0) {
        forall h: nat ensures Backed(E0, E0, k, 0, h) {
        }
      }
      forall i | 0 <= i < |keys| ensures AtMost(E0, At(E0, keys[i]), n) {
        LiteralSuccessIsShallow(E0, E0, keys, n, 0, keys[i]);
      }
    } else if forall i :: 0 <= i < |keys| ==> AtMost(E0, At(E0, keys[i]), n) {
      ShallowAlwaysExpands(E0, keys, n);
    }
  }

  // ------------------------------------------------------------------- fusion

  /** Why plain text has to be clean: a dollar sign that is taken in fuses with the brace that follows. */
  lemma PlainTextCanFuse()
    ensures ExpandValue("${A}{C}", map["A" := "$", "C" := "v"]) == Ok("${C}")
  {
    var env: Env := map["A" := "$", "C" := "v"];
    var s := "${A}{C}";
    assert s[2..] == "A}{C}" && s[2..][1..] == "}{C}";
    assert IndexByte(s[2..], '}') == Some(1);
    assert s[2..3] == "A" && s[4..] == "{C}";
    var rest := "{C}";
    assert !Contains(rest) by {
      assert rest[1..] == "C}" && rest[1..][1..] == "}" && rest[1..][1..][1..] == "";
    }
    NothingToExpand(rest, env);
    assert "$" + rest == "${C}";
  }
}
