/**
 * ${NAME} expansion of config/dotenv.go: a scan that substitutes references in
 * one value, run over all values in place, pass after pass.
 */
module DotEnv {
  import opened Basics

  type Env = map<string, string>

  datatype Reason = Unterminated | InvalidName | TooDeep

  /** What a map index gives for a name that is not set. */
  function Lookup(env: Env, name: string): string {
    if name in env then env[name] else ""
  }

  predicate IsLetterOrUnderscore(c: char) {
    c == '_' || IsLetter(c)
  }

  /** isDotEnvKey: a letter or underscore, then letters, underscores and digits. */
  predicate IsKey(s: string) {
    s != "" && IsLetterOrUnderscore(s[0]) && forall i :: 0 < i < |s| ==> IsLetterOrUnderscore(s[i]) || IsDigit(s[i])
  }

  method IsDotEnvKey(s: string) returns (ok: bool)
    ensures ok <==> IsKey(s)
    ensures ok <==> |s| > 0 && !('0' <= s[0] <= '9')
                    && forall i :: 0 <= i < |s| ==> s[i] == '_' || 'a' <= s[i] <= 'z' || 'A' <= s[i] <= 'Z' || '0' <= s[i] <= '9'
  {
    if s == "" {
      return false;
    }
    for i := 0 to |s|
      invariant forall j :: 0 <= j < i ==> IsLetterOrUnderscore(s[j]) || (j > 0 && IsDigit(s[j]))
    {
      if IsLetterOrUnderscore(s[i]) || (i > 0 && IsDigit(s[i])) {
        continue;
      }
      return false;
    }
    return true;
  }

  predicate Opens(s: string) {
    |s| >= 2 && s[0] == '$' && s[1] == '{'
  }

  /** Somewhere a reference opens. */
  predicate Contains(s: string) {
    s != "" && (Opens(s) || Contains(s[1..]))
  }

  function IndexByte(s: string, c: char): (r: Option<nat>)
    ensures r.Some? ==> r.value < |s| && s[r.value] == c
  {
    if s == "" then None
    else if s[0] == c then Some(0)
    else
      match IndexByte(s[1..], c)
      case None => None
      case Some(i) => Some(i + 1)
  }

  function Prepend(p: string, r: Result<string, Reason>): Result<string, Reason> {
    match r
    case Ok(s) => Ok(p + s)
    case Err(e) => Err(e)
  }

  /** Every reference replaced by its value, left to right, without looking at what was put in. */
  function ExpandValue(s: string, env: Env): Result<string, Reason> {
    if s == "" then Ok("")
    else if Opens(s) then
      match IndexByte(s[2..], '}')
      case None => Err(Unterminated)
      case Some(end) =>
        if IsKey(s[2..2 + end]) then Prepend(Lookup(env, s[2..2 + end]), ExpandValue(s[2 + end + 1..], env))
        else Err(InvalidName)
    else Prepend([s[0]], ExpandValue(s[1..], env))
  }

  lemma {:induction false} NothingToExpand(s: string, env: Env)
    requires !Contains(s)
    ensures ExpandValue(s, env) == Ok(s)
  {
    if s != "" {
      NothingToExpand(s[1..], env);
      assert [s[0]] + s[1..] == s;
    }
  }

  lemma PrependTwice(p: string, q: string, r: Result<string, Reason>)
    ensures Prepend(p, Prepend(q, r)) == Prepend(p + q, r)
  {
    if r.Ok? {
      assert p + (q + r.value) == (p + q) + r.value;
    }
  }

  lemma PrependNothing(r: Result<string, Reason>)
    ensures Prepend("", r) == r
  {
    if r.Ok? {
      assert "" + r.value == r.value;
    }
  }

  /** What the scanner makes of s, having written sb and being at index i. */
  ghost predicate Scanned(s: string, env: Env, sb: string, i: nat, all: Result<string, Reason>) {
    i <= |s| && all == Prepend(sb, ExpandValue(s[i..], env))
  }

  predicate OpensAt(s: string, i: nat) {
    i + 1 < |s| && s[i] == '$' && s[i + 1] == '{'
  }

  /** The next character is plain. */
  lemma OneCharacter(s: string, env: Env, sb: string, i: nat, all: Result<string, Reason>)
    requires Scanned(s, env, sb, i, all) && i < |s| && !OpensAt(s, i)
    ensures Scanned(s, env, sb + [s[i]], i + 1, all)
  {
    var left := s[i..];
    assert left[1..] == s[i + 1..];
    PrependTwice(sb, [s[i]], ExpandValue(left[1..], env));
  }

  /** A reference is next, and where it ends. */
  lemma OneReference(s: string, env: Env, sb: string, i: nat, end: nat, all: Result<string, Reason>)
    requires Scanned(s, env, sb, i, all) && OpensAt(s, i) && IndexByte(s[i + 2..], '}') == Some(end)
    ensures IsKey(s[i + 2..][..end]) ==> Scanned(s, env, sb + Lookup(env, s[i + 2..][..end]), i + 2 + end + 1, all)
    ensures !IsKey(s[i + 2..][..end]) ==> all == Err(InvalidName)
  {
    var left, name := s[i..], s[i + 2..][..end];
    assert left[2..] == s[i + 2..] && left[2..2 + end] == name;
    assert left[2 + end + 1..] == s[i + 2 + end + 1..];
    PrependTwice(sb, Lookup(env, name), ExpandValue(left[2 + end + 1..], env));
  }

  lemma NoEnd(s: string, env: Env, sb: string, i: nat, all: Result<string, Reason>)
    requires Scanned(s, env, sb, i, all) && OpensAt(s, i) && IndexByte(s[i + 2..], '}') == None
    ensures all == Err(Unterminated)
  {
    assert s[i..][2..] == s[i + 2..];
  }

  lemma ScanBegins(s: string, env: Env)
    ensures Scanned(s, env, "", 0, ExpandValue(s, env))
  {
    assert s[0..] == s;
    PrependNothing(ExpandValue(s, env));
  }

  lemma ScanEnds(s: string, env: Env, sb: string, all: Result<string, Reason>)
    requires Scanned(s, env, sb, |s|, all)
    ensures all == Ok(sb)
  {
    assert s[|s|..] == "" && sb + "" == sb;
  }

  /** expandDotEnvValue */
  method ExpandDotEnvValue(s: string, env: Env) returns (r: Result<string, Reason>)
    ensures r == ExpandValue(s, env)
  {
    if !Contains(s) {
      NothingToExpand(s, env);
      return Ok(s);
    }
    ghost var all := ExpandValue(s, env);
    var sb: string := "";
    var i := 0;
    ScanBegins(s, env);
    while i < |s|
      invariant Scanned(s, env, sb, i, all)
    {
      if s[i] == '$' && i + 1 < |s| && s[i + 1] == '{' {
        var end := IndexByte(s[i + 2..], '}');
        if end.None? {
          NoEnd(s, env, sb, i, all);
          return Err(Unterminated);
        }
        OneReference(s, env, sb, i, end.value, all);
        var name := s[i + 2..][..end.value];
        var ok := IsDotEnvKey(name);
        if !ok {
          return Err(InvalidName);
        }
        sb := sb + Lookup(env, name);
        i := i + 2 + end.value + 1;
      } else {
        OneCharacter(s, env, sb, i, all);
        sb := sb + [s[i]];
        i := i + 1;
      }
    }
    ScanEnds(s, env, sb, all);
    r := Ok(sb);
  }

  // ------------------------------------------------------------------ passes

  predicate Pending(env: Env, keys: seq<string>) {
    exists i :: 0 <= i < |keys| && Contains(Lookup(env, keys[i]))
  }

  /** One pass: each value in turn is expanded against the map as it is by then. */
  function Pass(env: Env, keys: seq<string>): Result<Env, Reason>
    decreases |keys|
  {
    if keys == [] then Ok(env)
    else
      match ExpandValue(Lookup(env, keys[0]), env)
      case Err(e) => Err(e)
      case Ok(out) => Pass(env[keys[0] := out], keys[1..])
  }

  function Passes(env: Env, keys: seq<string>, n: nat): Result<Env, Reason>
    decreases n
  {
    if n == 0 then (if Pending(env, keys) then Err(TooDeep) else Ok(env))
    else
      match Pass(env, keys)
      case Err(e) => Err(e)
      case Ok(env') => if Pending(env', keys) then Passes(env', keys, n - 1) else Ok(env')
  }

  method OnePass(env: Env, keys: seq<string>) returns (r: Result<Env, Reason>, pending: bool)
    requires Distinct(keys)
    ensures r == Pass(env, keys)
    ensures r.Ok? ==> (pending <==> Pending(r.value, keys))
  {
    var now := env;
    pending := false;
    for i := 0 to |keys|
      invariant Pass(env, keys) == Pass(now, keys[i..])
      invariant pending <==> exists j :: 0 <= j < i && Contains(Lookup(now, keys[j]))
    {
      assert keys[i..][0] == keys[i] && keys[i..][1..] == keys[i + 1..];
      var out := ExpandDotEnvValue(Lookup(now, keys[i]), now);
      if out.Err? {
        return Err(out.error), pending;
      }
      ghost var before := now;
      now := now[keys[i] := out.value];
      assert forall j :: 0 <= j < i ==> Lookup(now, keys[j]) == Lookup(before, keys[j]);
      if Contains(out.value) {
        pending := true;
        assert Contains(Lookup(now, keys[i]));
      }
    }
    assert keys[|keys|..] == [];
    r := Ok(now);
  }

  // ------------------------------------------------------------------ tokens

  /** A value as a list of plain characters and references. */
  datatype Token = Lit(c: char) | Ref(name: string)

  type Value = seq<Token>

  type Values = map<string, Value>

  function At(env: Values, name: string): Value {
    if name in env then env[name] else []
  }

  function RefText(name: string): string {
    ['$', '{'] + (name + ['}'])
  }

  function Text(v: Value): string {
    if v == [] then ""
    else (match v[0] case Lit(c) => [c] case Ref(name) => RefText(name)) + Text(v[1..])
  }

  function TextOf(env: Values): Env {
    map n | n in env :: Text(env[n])
  }

  /**
   * No plain text can grow into a reference: a plain dollar sign is followed by
   * plain text of the same value, and not by a brace. Names are keys.
   */
  predicate Clean(v: Value) {
    v == []
    || (&& Clean(v[1..])
        && match v[0]
           case Lit(c) => c == '$' ==> |v| > 1 && v[1].Lit? && v[1].c != '{'
           case Ref(name) => IsKey(name))
  }

  predicate AllClean(env: Values) {
    forall n :: n in env ==> Clean(env[n])
  }

  predicate HasRef(v: Value) {
    exists i :: 0 <= i < |v| && v[i].Ref?
  }

  /** Every reference replaced by what its name stands for in env. */
  function Subst(v: Value, env: Values): Value {
    if v == [] then []
    else (match v[0] case Lit(_) => [v[0]] case Ref(name) => At(env, name)) + Subst(v[1..], env)
  }

  lemma {:induction false} CleanConcat(a: Value, b: Value)
    requires Clean(a) && Clean(b)
    ensures Clean(a + b)
  {
    if a == [] {
      assert a + b == b;
    } else {
      assert (a + b)[1..] == a[1..] + b;
      CleanConcat(a[1..], b);
    }
  }

  lemma {:induction false} SubstClean(v: Value, env: Values)
    requires Clean(v) && AllClean(env)
    ensures Clean(Subst(v, env))
  {
    if v != [] {
      SubstClean(v[1..], env);
      match v[0]
      case Lit(c) =>
        if c == '$' {
          assert Subst(v[1..], env) == [v[1]] + Subst(v[1..][1..], env);
        }
        var out := Subst(v, env);
        assert out == [v[0]] + Subst(v[1..], env) && out[1..] == Subst(v[1..], env);
      case Ref(name) =>
        CleanConcat(At(env, name), Subst(v[1..], env));
    }
  }

  lemma {:induction false} TextConcat(a: Value, b: Value)
    ensures Text(a + b) == Text(a) + Text(b)
  {
    if a == [] {
      assert a + b == b;
    } else {
      assert (a + b)[0] == a[0] && (a + b)[1..] == a[1..] + b;
      TextConcat(a[1..], b);
    }
  }

  lemma {:induction false} EndOfName(name: string, rest: string)
    requires forall i :: 0 <= i < |name| ==> name[i] != '}'
    ensures IndexByte(name + ['}'] + rest, '}') == Some(|name|)
  {
    var s := name + ['}'] + rest;
    if name != "" {
      assert s[1..] == name[1..] + ['}'] + rest;
      EndOfName(name[1..], rest);
    }
  }

  lemma KeyHasNoBrace(name: string)
    requires IsKey(name)
    ensures forall i :: 0 <= i < |name| ==> name[i] != '}'
  {
  }

  /** A plain character at the front does not open a reference. */
  lemma PlainFront(v: Value)
    requires Clean(v) && v != [] && v[0].Lit?
    ensures Text(v) == [v[0].c] + Text(v[1..]) && !Opens(Text(v))
  {
    if v[0].c == '$' {
      assert Text(v[1..]) == [v[1].c] + Text(v[1..][1..]);
    }
  }

  lemma RefTextSlices(name: string, rest: string)
    ensures var s := RefText(name) + rest;
            && Opens(s) && s[2..] == name + ['}'] + rest
            && s[2..2 + |name|] == name && s[2 + |name| + 1..] == rest
  {
    var s := RefText(name) + rest;
    assert |RefText(name)| == |name| + 3;
    forall i | 0 <= i < |name| ensures s[2 + i] == name[i] {
      assert RefText(name)[2 + i] == (name + ['}'])[i];
    }
  }

  lemma RefFront(v: Value)
    requires Clean(v) && v != [] && v[0].Ref?
    ensures var s, name, rest := Text(v), v[0].name, Text(v[1..]);
            && s == RefText(name) + rest && Opens(s) && IsKey(name)
            && IndexByte(s[2..], '}') == Some(|name|)
            && s[2..2 + |name|] == name && s[2 + |name| + 1..] == rest
  {
    var name, rest := v[0].name, Text(v[1..]);
    KeyHasNoBrace(name);
    EndOfName(name, rest);
    RefTextSlices(name, rest);
  }

  /** A plain character comes out as it is. */
  lemma ExpandPlain(v: Value, env: Values)
    requires Clean(v) && v != [] && v[0].Lit? && ExpandValue(Text(v[1..]), TextOf(env)) == Ok(Text(Subst(v[1..], env)))
    ensures ExpandValue(Text(v), TextOf(env)) == Ok(Text(Subst(v, env)))
  {
    PlainFront(v);
    assert Text(v)[1..] == Text(v[1..]);
    TextConcat([v[0]], Subst(v[1..], env));
    assert [v[0]][1..] == [] && Text([v[0]]) == [v[0].c];
  }

  /** What the scanner does at the front of a text that begins with a reference. */
  lemma ExpandFront(s: string, name: string, rest: string, env: Env)
    requires Opens(s) && IsKey(name) && IndexByte(s[2..], '}') == Some(|name|)
    requires s[2..2 + |name|] == name && s[2 + |name| + 1..] == rest
    ensures ExpandValue(s, env) == Prepend(Lookup(env, name), ExpandValue(rest, env))
  {
  }

  /** A reference comes out as its value. */
  lemma ExpandReference(v: Value, env: Values)
    requires Clean(v) && v != [] && v[0].Ref? && ExpandValue(Text(v[1..]), TextOf(env)) == Ok(Text(Subst(v[1..], env)))
    ensures ExpandValue(Text(v), TextOf(env)) == Ok(Text(Subst(v, env)))
  {
    var name, rest := v[0].name, Text(v[1..]);
    RefFront(v);
    ExpandFront(Text(v), name, rest, TextOf(env));
    assert Lookup(TextOf(env), name) == Text(At(env, name));
    TextConcat(At(env, name), Subst(v[1..], env));
  }

  /** On clean values the scanner does to the text what substitution does to the tokens. */
  lemma {:induction false} ExpandIsSubst(v: Value, env: Values)
    requires Clean(v)
    ensures ExpandValue(Text(v), TextOf(env)) == Ok(Text(Subst(v, env)))
  {
    if v != [] {
      ExpandIsSubst(v[1..], env);
      if v[0].Lit? {
        ExpandPlain(v, env);
      } else {
        ExpandReference(v, env);
      }
    }
  }

  lemma {:induction false} ContainsIsHasRef(v: Value)
    requires Clean(v)
    ensures Contains(Text(v)) <==> HasRef(v)
  {
    if v != [] {
      ContainsIsHasRef(v[1..]);
      assert HasRef(v) <==> v[0].Ref? || HasRef(v[1..]) by {
        if i :| 0 <= i < |v| && v[i].Ref? {
          assert i > 0 ==> v[1..][i - 1].Ref?;
        }
        if i :| 0 <= i < |v[1..]| && v[1..][i].Ref? {
          assert v[i + 1].Ref?;
        }
      }
      if v[0].Lit? {
        PlainFront(v);
        assert Text(v)[1..] == Text(v[1..]);
      } else {
        RefFront(v);
      }
    }
  }

  /** A reference that is malformed: no brace closes it, or what is in the braces is no name. */
  predicate Malformed(bad: string, e: Reason) {
    && Opens(bad)
    && match IndexByte(bad[2..], '}')
       case None => e == Unterminated
       case Some(end) => e == InvalidName && !IsKey(bad[2..2 + end])
  }

  /** What comes before the first malformed reference does not save the value, and what comes after it does not matter. */
  lemma {:induction false} FirstMalformedIsTheError(v: Value, bad: string, env: Values, e: Reason)
    requires Clean(v) && Malformed(bad, e)
    ensures ExpandValue(Text(v) + bad, TextOf(env)) == Err(e)
  {
    if v == [] {
      assert Text(v) + bad == bad;
      MalformedFails(bad, TextOf(env), e);
    } else {
      FirstMalformedIsTheError(v[1..], bad, env, e);
      if v[0].Lit? {
        PlainReads(v, bad, TextOf(env));
      } else {
        RefBefore(v, bad, TextOf(env));
      }
    }
  }

  lemma RefReads(s: string, name: string, rest: string, env: Env)
    requires Opens(s) && IndexByte(s[2..], '}') == Some(|name|) && IsKey(name)
    requires s[2..2 + |name|] == name && s[2 + |name| + 1..] == rest
    ensures ExpandValue(s, env) == Prepend(Lookup(env, name), ExpandValue(rest, env))
  {
  }

  lemma RefBefore(v: Value, bad: string, env: Env)
    requires Clean(v) && v != [] && v[0].Ref?
    ensures ExpandValue(Text(v) + bad, env) == Prepend(Lookup(env, v[0].name), ExpandValue(Text(v[1..]) + bad, env))
  {
    var name, rest := v[0].name, Text(v[1..]) + bad;
    PlusAssociates(RefText(name), Text(v[1..]), bad);
    RefTextSlices(name, rest);
    KeyHasNoBrace(name);
    EndOfName(name, rest);
    RefReads(RefText(name) + rest, name, rest, env);
  }

  lemma MalformedFails(bad: string, env: Env, e: Reason)
    requires Malformed(bad, e)
    ensures ExpandValue(bad, env) == Err(e)
  {
  }

  lemma PlainReads(v: Value, bad: string, env: Env)
    requires Clean(v) && v != [] && v[0].Lit?
    ensures ExpandValue(Text(v) + bad, env) == Prepend([v[0].c], ExpandValue(Text(v[1..]) + bad, env))
  {
    PlainFront(v);
    PlainBefore(v, bad);
    assert (Text(v) + bad)[1..] == Text(v[1..]) + bad;
  }

  lemma PlainBefore(v: Value, bad: string)
    requires Clean(v) && v != [] && v[0].Lit?
    ensures !Opens(Text(v) + bad)
  {
    if v[0].c == '$' {
      assert Text(v[1..]) == [v[1].c] + Text(v[1..][1..]);
    }
  }

  // --------------------------------------------------------- passes on tokens

  predicate SomeRef(env: Values, keys: seq<string>) {
    exists i :: 0 <= i < |keys| && HasRef(At(env, keys[i]))
  }

  function SubstPass(env: Values, keys: seq<string>): Values
    decreases |keys|
  {
    if keys == [] then env else SubstPass(env[keys[0] := Subst(At(env, keys[0]), env)], keys[1..])
  }

  function SubstPasses(env: Values, keys: seq<string>, n: nat): Option<Values>
    decreases n
  {
    if n == 0 then (if SomeRef(env, keys) then None else Some(env))
    else
      var env' := SubstPass(env, keys);
      if SomeRef(env', keys) then SubstPasses(env', keys, n - 1) else Some(env')
  }

  lemma {:induction false} PassIsSubstPass(env: Values, keys: seq<string>)
    requires AllClean(env)
    ensures AllClean(SubstPass(env, keys)) && Pass(TextOf(env), keys) == Ok(TextOf(SubstPass(env, keys)))
    decreases |keys|
  {
    if keys != [] {
      var v := At(env, keys[0]);
      ExpandIsSubst(v, env);
      SubstClean(v, env);
      var env' := env[keys[0] := Subst(v, env)];
      assert TextOf(env') == TextOf(env)[keys[0] := Text(Subst(v, env))];
      PassIsSubstPass(env', keys[1..]);
    }
  }

  lemma PendingIsSomeRef(env: Values, keys: seq<string>)
    requires AllClean(env)
    ensures Pending(TextOf(env), keys) <==> SomeRef(env, keys)
  {
    forall i | 0 <= i < |keys| ensures Contains(Lookup(TextOf(env), keys[i])) <==> HasRef(At(env, keys[i])) {
      ContainsIsHasRef(At(env, keys[i]));
    }
  }

  function Outcome(o: Option<Values>): Result<Env, Reason> {
    match o
    case None => Err(TooDeep)
    case Some(env) => Ok(TextOf(env))
  }

  lemma OneMorePass(env: Values, keys: seq<string>, n: nat)
    requires n > 0 && Pass(TextOf(env), keys) == Ok(TextOf(SubstPass(env, keys)))
    requires Pending(TextOf(SubstPass(env, keys)), keys) <==> SomeRef(SubstPass(env, keys), keys)
    requires Passes(TextOf(SubstPass(env, keys)), keys, n - 1) == Outcome(SubstPasses(SubstPass(env, keys), keys, n - 1))
    ensures Passes(TextOf(env), keys, n) == Outcome(SubstPasses(env, keys, n))
  {
  }

  /** On clean values expandDotEnv is substitution, pass by pass, and fails only by depth. */
  lemma {:induction false} PassesAreSubstPasses(env: Values, keys: seq<string>, n: nat)
    requires AllClean(env)
    ensures Passes(TextOf(env), keys, n) == Outcome(SubstPasses(env, keys, n))
    decreases n
  {
    if n == 0 {
      PendingIsSomeRef(env, keys);
    } else {
      var next := SubstPass(env, keys);
      PassIsSubstPass(env, keys);
      PendingIsSomeRef(next, keys);
      PassesAreSubstPasses(next, keys, n - 1);
      OneMorePass(env, keys, n);
    }
  }
}
