/**
 * expandDotEnv of config/dotenv.go, with its bound of sixteen passes: which
 * values expand, and what they expand to.
 */
module DotEnvExpand {
  import opened Basics
  import opened DotEnv
  import opened DotEnvDepth

  /** DotEnvMaxExpansionDepth */
  const MAX_DEPTH: nat := 16

  /** Following references from each expandable value one meets plain text within h steps. */
  predicate NoDeeperThan(E0: Values, keys: seq<string>, h: nat) {
    forall i :: 0 <= i < |keys| ==> AtMost(E0, At(E0, keys[i]), h)
  }

  /** Some expandable value leads to a cycle of references. */
  ghost predicate LeadsToCycle(E0: Values, keys: seq<string>) {
    exists walk, i, j :: ReachesCycle(E0, walk, i, j) && walk[0] in keys
  }

  /** All or nothing: each expandable value is fully expanded, all others are as written; or the depth is the error. */
  ghost predicate AllOrTooDeep(E0: Values, keys: seq<string>, r: Result<Env, Reason>) {
    match r
    case Ok(env) =>
      && (forall k :: k in keys ==> FullyExpanded(E0, env, k))
      && (forall m :: m !in keys ==> Lookup(env, m) == Text(At(E0, m)))
    case Err(e) => e == TooDeep
  }

  /**
   * What is promised of values as they are written in E0: references d deep
   * always expand; exactly those, where they lead to values that are never
   * rewritten; and references h deep, where every name is expandable.
   */
  ghost predicate AsPromised(E0: Values, keys: seq<string>, r: Result<Env, Reason>, d: nat, h: nat) {
    && AllOrTooDeep(E0, keys, r)
    && (NoDeeperThan(E0, keys, d) ==> r.Ok?)
    && (AllLiteralRefs(E0, keys) ==> (r.Ok? <==> NoDeeperThan(E0, keys, d)))
    && (AllExpandable(E0, keys) && NoDeeperThan(E0, keys, h) ==> r.Ok?)
    && (LeadsToCycle(E0, keys) ==> r == Err(TooDeep))
  }

  lemma PassesSucceedOrFail(E0: Values, keys: seq<string>, n: nat)
    requires AllClean(E0) && Distinct(keys)
    ensures AllOrTooDeep(E0, keys, Passes(TextOf(E0), keys, n))
    ensures LeadsToCycle(E0, keys) ==> Passes(TextOf(E0), keys, n) == Err(TooDeep)
  {
    PassesAreSubstPasses(E0, keys, n);
    if Passes(TextOf(E0), keys, n).Ok? {
      SuccessIsFullExpansion(E0, keys, n);
    }
    if LeadsToCycle(E0, keys) {
      var walk, i, j :| ReachesCycle(E0, walk, i, j) && walk[0] in keys;
      CycleAlwaysFails(E0, keys, n, walk, i, j);
    }
  }

  lemma PassesAsPromised(E0: Values, keys: seq<string>, n: nat, h: nat)
    requires AllClean(E0) && Distinct(keys) && h < Power2(n)
    ensures AsPromised(E0, keys, Passes(TextOf(E0), keys, n), n, h)
  {
    PassesSucceedOrFail(E0, keys, n);
    if NoDeeperThan(E0, keys, n) {
      ShallowAlwaysExpands(E0, keys, n);
    }
    if AllLiteralRefs(E0, keys) {
      LiteralChainsExpandExactly(E0, keys, n);
    }
    if AllExpandable(E0, keys) && NoDeeperThan(E0, keys, h) {
      DeepExpandsWhenAllExpandable(E0, keys, h, n);
    }
  }

  lemma SixteenDoublings()
    ensures Power2(MAX_DEPTH) == 65536
  {
    assert Power2(4) == 16;
    assert Power2(8) == 256;
    assert Power2(12) == 4096;
  }

  /** The same, whatever values the texts in env are read as. */
  lemma TextsAsPromised(env: Env, keys: seq<string>)
    requires Distinct(keys)
    ensures forall E0: Values :: AllClean(E0) && TextOf(E0) == env ==> AsPromised(E0, keys, Passes(env, keys, MAX_DEPTH), 16, 65535)
  {
    SixteenDoublings();
    forall E0: Values | AllClean(E0) && TextOf(E0) == env ensures AsPromised(E0, keys, Passes(env, keys, MAX_DEPTH), 16, 65535) {
      PassesAsPromised(E0, keys, MAX_DEPTH, 65535);
    }
  }

  /**
   * expandDotEnv; keys are the expandable ones, in whatever order they are
   * visited. Values whose plain text cannot fuse into a reference come out as
   * promised.
   */
  method ExpandDotEnv(env: Env, keys: seq<string>) returns (r: Result<Env, Reason>)
    requires Distinct(keys)
    ensures r == Passes(env, keys, MAX_DEPTH)
    ensures forall E0: Values :: AllClean(E0) && TextOf(E0) == env ==> AsPromised(E0, keys, r, 16, 65535)
  {
    TextsAsPromised(env, keys);
    var now := env;
    for pass := 0 to MAX_DEPTH
      invariant Passes(env, keys, MAX_DEPTH) == Passes(now, keys, MAX_DEPTH - pass)
    {
      var next, pending := OnePass(now, keys);
      if next.Err? {
        return next;
      }
      now := next.value;
      if !pending {
        return Ok(now);
      }
    }
    for i := 0 to |keys|
      invariant forall j :: 0 <= j < i ==> !Contains(Lookup(now, keys[j]))
    {
      if Contains(Lookup(now, keys[i])) {
        return Err(TooDeep);
      }
    }
    r := Ok(now);
  }
}
