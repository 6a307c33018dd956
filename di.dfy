/** lib/di.js: resolving each parameter of a task function to a value through
    an ordered chain of six resolvers (`_getModule`), and the injection list of
    a function (`getInjection`). Module loading, `kebabCase` and the memoised
    settings are part of the environment the resolvers see. */
module Di {
  import opened Js
  import opened Util

  /** What `require(id)` does: returns the module's export, or throws. */
  datatype Outcome = Returned(v: Value) | Threw

  /** The environment of one resolution: `require` relative to the task's
      path, lodash `kebabCase`, the settings object and the `augment.inject`
      object found in it. */
  datatype Env = Env(
    load: string -> Outcome,
    kebab: string -> string,
    settings: Value,
    augment: map<string, Value>)

  /** `{...get(settings, 'augment.inject', {}), ...inject}`: the caller's own
      entries override the augmenting ones. */
  function Merged(augment: map<string, Value>, inject: map<string, Value>): (m: map<string, Value>)
    ensures m.Keys == augment.Keys + inject.Keys
    ensures forall p :: p in inject ==> m[p] == inject[p]
    ensures forall p :: p in augment && p !in inject ==> m[p] == augment[p]
  {
    augment + inject
  }

  /** The results of the resolvers of lib/di.js:8-23, in order, for one
      parameter; `Returned(Undefined)` is a resolver that returns nothing. */
  function Outcomes(param: string, inject: map<string, Value>, env: Env): (os: seq<Outcome>)
    ensures |os| == 6
  {
    [ if param in inject && !inject[param].Str? then Returned(inject[param]) else Returned(Undefined),
      if param in inject && inject[param].Str? then env.load(inject[param].s) else Returned(Undefined),
      if param == "settings" then Returned(env.settings)
      else if param == "getModule" then Returned(ModuleGetter)
      else if param == "gutil" then env.load("gulp-util")
      else Returned(Undefined),
      env.load("gulp-" + env.kebab(param)),
      env.load(env.kebab(param)),
      env.load(param) ]
  }

  /** A resolver's result counts when it returned a truthy value; a throw is
      swallowed. */
  predicate Accepts(o: Outcome) {
    o.Returned? && Truthy(o.v)
  }

  /** The message of the `RangeError` raised when every resolver fails. */
  function NotFoundMessage(param: string): string {
    "Could not inject module for " + param + ", did you forget to 'npm install' / 'yarn add' the given module."
  }

  /** The value of the first accepting result, or the `RangeError`. */
  function FirstAccepted(os: seq<Outcome>, param: string): Result<Value> {
    if os == [] then Err(RangeError(NotFoundMessage(param)))
    else if Accepts(os[0]) then Ok(os[0].v)
    else FirstAccepted(os[1..], param)
  }

  /** `_getModule({param, inject})`. */
  function Resolve(param: string, inject: map<string, Value>, env: Env): Result<Value> {
    FirstAccepted(Outcomes(param, Merged(env.augment, inject), env), param)
  }

  /** The resolution is the result of the first accepting resolver, and every
      resolver before it either threw or returned something falsy; when none
      accepts, the error names the parameter. */
  lemma {:induction false} FirstAcceptedMeaning(os: seq<Outcome>, param: string)
    ensures FirstAccepted(os, param).Ok? <==> exists j :: 0 <= j < |os| && Accepts(os[j])
    ensures FirstAccepted(os, param).Ok? ==>
            exists j :: && 0 <= j < |os| && Accepts(os[j])
                        && FirstAccepted(os, param).value == os[j].v
                        && forall i :: 0 <= i < j ==> !Accepts(os[i])
    ensures FirstAccepted(os, param).Err? ==> FirstAccepted(os, param).error == RangeError(NotFoundMessage(param))
    ensures FirstAccepted(os, param).Ok? ==> Truthy(FirstAccepted(os, param).value)
  {
    if FirstAccepted(os, param).Ok? {
      FirstAcceptedFound(os, param);
    } else {
      FirstAcceptedNone(os, param);
    }
  }

  /** A value found is the first accepting result's. */
  lemma {:induction false} FirstAcceptedFound(os: seq<Outcome>, param: string)
    requires FirstAccepted(os, param).Ok?
    ensures exists j :: && 0 <= j < |os| && Accepts(os[j])
                        && FirstAccepted(os, param).value == os[j].v
                        && forall i :: 0 <= i < j ==> !Accepts(os[i])
  {
    if !Accepts(os[0]) {
      FirstAcceptedFound(os[1..], param);
      var j :| && 0 <= j < |os[1..]| && Accepts(os[1..][j])
               && FirstAccepted(os[1..], param).value == os[1..][j].v
               && forall i :: 0 <= i < j ==> !Accepts(os[1..][i]);
      assert forall i :: 1 <= i < j + 1 ==> os[i] == os[1..][i - 1];
      assert Accepts(os[j + 1]) && FirstAccepted(os, param).value == os[j + 1].v;
    } else {
      assert FirstAccepted(os, param).value == os[0].v;
    }
  }

  /** An error means that no result accepts, and it names the parameter. */
  lemma {:induction false} FirstAcceptedNone(os: seq<Outcome>, param: string)
    requires FirstAccepted(os, param).Err?
    ensures forall j :: 0 <= j < |os| ==> !Accepts(os[j])
    ensures FirstAccepted(os, param).error == RangeError(NotFoundMessage(param))
  {
    if os != [] {
      FirstAcceptedNone(os[1..], param);
      forall j | 0 <= j < |os| ensures !Accepts(os[j]) {
        if j > 0 { assert os[j] == os[1..][j - 1]; }
      }
    }
  }

  /** Results that do not count are passed over. */
  lemma {:induction false} SkipRejected(os: seq<Outcome>, n: nat, param: string)
    requires n <= |os|
    requires forall i :: 0 <= i < n ==> !Accepts(os[i])
    ensures FirstAccepted(os, param) == FirstAccepted(os[n..], param)
  {
    if n > 0 {
      SkipRejected(os[1..], n - 1, param);
      assert os[1..][n - 1..] == os[n..];
    }
  }

  /** `_getModule`: the `find` over the resolvers, keeping the last value a
      resolver returned; `tried` counts the resolvers called, and `find`
      stops at the first one that accepts. */
  method GetModule(param: string, inject: map<string, Value>, env: Env) returns (r: Result<Value>, tried: nat)
    ensures r == Resolve(param, inject, env)
    ensures 1 <= tried <= 6
    ensures r.Ok? ==> Accepts(Outcomes(param, Merged(env.augment, inject), env)[tried - 1])
    ensures r.Err? ==> tried == 6
    ensures forall i :: 0 <= i < tried - 1 ==> !Accepts(Outcomes(param, Merged(env.augment, inject), env)[i])
  {
    var os := Outcomes(param, Merged(env.augment, inject), env);
    var resolved := Undefined;
    var found := false;
    var k := 0;
    while k < |os| && !found
      invariant 0 <= k <= |os|
      invariant found ==> k >= 1 && Accepts(os[k - 1]) && resolved == os[k - 1].v
      invariant forall i :: 0 <= i < (if found then k - 1 else k) ==> !Accepts(os[i])
      invariant found ==> Resolve(param, inject, env) == Ok(resolved)
      invariant !found ==> Resolve(param, inject, env) == FirstAccepted(os[k..], param)
      decreases |os| - k
    {
      var outcome := os[k];
      assert os[k..][1..] == os[k + 1..];
      if outcome.Returned? {
        resolved := outcome.v;
        found := Truthy(resolved);
      }
      k := k + 1;
    }
    tried := k;
    if found {
      r := Ok(resolved);
    } else {
      r := Err(RangeError(NotFoundMessage(param)));
    }
  }

  /** An explicitly injected value that is truthy and not a string is used as
      it is, whatever the augmenting entries hold. */
  lemma ExplicitInjectWins(param: string, inject: map<string, Value>, env: Env)
    requires param in inject && !inject[param].Str? && Truthy(inject[param])
    ensures Resolve(param, inject, env) == Ok(inject[param])
  {
  }

  /** An injected value that is falsy and not a string does not count: the
      remaining resolvers are consulted. */
  lemma FalsyInjectFallsThrough(param: string, inject: map<string, Value>, env: Env)
    requires param in inject && !inject[param].Str? && !Truthy(inject[param])
    ensures Resolve(param, inject, env) == FirstAccepted(Outcomes(param, Merged(env.augment, inject), env)[1..], param)
  {
  }

  /** An injected string is a module id, loaded in place of the parameter. */
  lemma InjectedStringIsLoaded(param: string, id: string, inject: map<string, Value>, env: Env)
    requires param in inject && inject[param] == Str(id)
    requires env.load(id).Returned? && Truthy(env.load(id).v)
    ensures Resolve(param, inject, env) == Ok(env.load(id).v)
  {
    SkipRejected(Outcomes(param, Merged(env.augment, inject), env), 1, param);
  }

  /** Without an injected entry, a parameter named `settings` receives the
      settings object when that is truthy. */
  lemma SettingsParameter(inject: map<string, Value>, env: Env)
    requires "settings" !in inject && "settings" !in env.augment && Truthy(env.settings)
    ensures Resolve("settings", inject, env) == Ok(env.settings)
  {
    SkipRejected(Outcomes("settings", Merged(env.augment, inject), env), 2, "settings");
  }

  /** A parameter no resolver before the last can serve is `require`d under
      its own name, after the `gulp-` prefixed and the kebab-cased ids. */
  lemma PlainRequireIsLast(param: string, inject: map<string, Value>, env: Env)
    requires param !in inject && param !in env.augment
    requires param != "settings" && param != "getModule" && param != "gutil"
    ensures Resolve(param, inject, env) ==
            if Accepts(env.load("gulp-" + env.kebab(param))) then Ok(env.load("gulp-" + env.kebab(param)).v)
            else if Accepts(env.load(env.kebab(param))) then Ok(env.load(env.kebab(param)).v)
            else if Accepts(env.load(param)) then Ok(env.load(param).v)
            else Err(RangeError(NotFoundMessage(param)))
  {
    var os := Outcomes(param, Merged(env.augment, inject), env);
    assert param !in Merged(env.augment, inject);
    assert os[0] == os[1] == os[2] == Returned(Undefined);
    SkipRejected(os, 3, param);
    var a, b, c := os[3], os[4], os[5];
    assert os[3..] == [a, b, c];
    assert a == env.load("gulp-" + env.kebab(param));
    assert b == env.load(env.kebab(param));
    assert c == env.load(param);
    FirstAcceptedOfThree(a, b, c, param);
  }

  lemma FirstAcceptedOfThree(a: Outcome, b: Outcome, c: Outcome, param: string)
    ensures FirstAccepted([a, b, c], param) ==
            if Accepts(a) then Ok(a.v) else if Accepts(b) then Ok(b.v) else if Accepts(c) then Ok(c.v)
            else Err(RangeError(NotFoundMessage(param)))
  {
    var none := Err(RangeError(NotFoundMessage(param)));
    assert [c][1..] == [];
    assert FirstAccepted([c], param) == if Accepts(c) then Ok(c.v) else none;
    assert [b, c][1..] == [c];
    assert FirstAccepted([b, c], param) == if Accepts(b) then Ok(b.v) else FirstAccepted([c], param);
    assert [a, b, c][1..] == [b, c];
    assert FirstAccepted([a, b, c], param) == if Accepts(a) then Ok(a.v) else FirstAccepted([b, c], param);
  }

  /** A value that neither the injected entry for `param`, nor the settings,
      nor any module provides is never what `param` resolves to. */
  lemma ResolveAvoids(param: string, inject: map<string, Value>, env: Env, x: Value)
    requires param in inject ==> inject[param] != x
    requires param !in inject && param in env.augment ==> env.augment[param] != x
    requires Truthy(x) && env.settings != x && x != ModuleGetter
    requires forall id :: env.load(id) != Returned(x)
    ensures Resolve(param, inject, env).Ok? ==> Resolve(param, inject, env).value != x
  {
    var merged := Merged(env.augment, inject);
    var os := Outcomes(param, merged, env);
    assert param in merged ==> merged[param] != x;
    assert os[0] != Returned(x) && os[1] != Returned(x) && os[2] != Returned(x);
    assert os[3] != Returned(x) && os[4] != Returned(x) && os[5] != Returned(x);
    FirstAcceptedMeaning(os, param);
  }

  /** The non-empty names (`filter(param=>param)`). */
  function NonEmpty(names: seq<string>): (r: seq<string>)
    ensures forall x :: x in r <==> x in names && x != ""
    ensures |r| <= |names|
  {
    if names == [] then []
    else (if names[0] != "" then [names[0]] else []) + NonEmpty(names[1..])
  }

  /** The filter keeps the source order of the names, which is the order of
      the arguments: the non-empty names of two runs are those of the first
      followed by those of the second. */
  lemma {:induction false} NonEmptyConcat(a: seq<string>, b: seq<string>)
    ensures NonEmpty(a + b) == NonEmpty(a) + NonEmpty(b)
    decreases |a|
  {
    if a != [] {
      assert (a + b)[0] == a[0] && (a + b)[1..] == a[1..] + b;
      NonEmptyConcat(a[1..], b);
    } else {
      assert a + b == b;
    }
  }

  /** One name is kept exactly when it is not empty. */
  lemma NonEmptySingle(n: string)
    ensures NonEmpty([n]) == if n != "" then [n] else []
  {
    assert [n][1..] == [];
  }

  /** The values of a list of results, or the first failure. */
  function Collect(rs: seq<Result<Value>>): (r: Result<seq<Value>>)
    ensures r.Ok? ==> |r.value| == |rs| && forall i :: 0 <= i < |rs| ==> rs[i] == Ok(r.value[i])
    ensures r.Err? ==> exists i :: 0 <= i < |rs| && rs[i] == Err(r.error) && forall j :: 0 <= j < i ==> rs[j].Ok?
  {
    if rs == [] then Ok([])
    else if rs[0].Err? then Err(rs[0].error)
    else
      match Collect(rs[1..])
      case Err(e) =>
        var i :| 0 <= i < |rs[1..]| && rs[1..][i] == Err(e) && forall j :: 0 <= j < i ==> rs[1..][j].Ok?;
        assert rs[i + 1] == Err(e);
        assert forall j :: 1 <= j < i + 1 ==> rs[j] == rs[1..][j - 1];
        Err(e)
      case Ok(vs) => Ok([rs[0].value] + vs)
  }

  /** The names resolved one by one. */
  function Resolutions(names: seq<string>, inject: map<string, Value>, env: Env): (rs: seq<Result<Value>>)
    ensures |rs| == |names|
    ensures forall i :: 0 <= i < |names| ==> rs[i] == Resolve(names[i], inject, env)
  {
    seq(|names|, i requires 0 <= i < |names| => Resolve(names[i], inject, env))
  }

  /** Each name's resolution is independent of the others: resolving two runs
      of names is resolving each run, and a name resolves the same wherever
      it stands. */
  lemma ResolutionsConcat(a: seq<string>, b: seq<string>, inject: map<string, Value>, env: Env)
    ensures Resolutions(a + b, inject, env) == Resolutions(a, inject, env) + Resolutions(b, inject, env)
    ensures Resolutions([], inject, env) == []
  {
  }

  /** `getInjection({func, inject})`: the values for the function's non-empty
      parameter names, in order, or the error of the first name that cannot
      be resolved (`Collect` and `Resolutions` state the two halves). */
  function GetInjection(source: string, inject: map<string, Value>, env: Env): Result<seq<Value>> {
    Collect(Resolutions(NonEmpty(ParamNames(source)), inject, env))
  }
}
