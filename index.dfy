/** lib/index.js: the settings lookup `getSetting`, the gulp task built for a
    task id (`_createTask`: its display name, the plan that runs its
    dependencies before it, the injected call of its function and the
    completion guard), and the repeated registration of all tasks with gulp
    (`_addTasksToGulp`). gulp itself is outside the model: `gulp.task` is a
    predicate saying whether a registration goes through. */
module Index {
  import opened Js
  import opened Objects
  import opened Tree
  import opened Util
  import opened Di
  import Strings
  import Consts

  // ---------------------------------------------------------------- settings

  /** `getSetting(key, registry)`: an options object handed to `importTasks`
      shadows the settings store for the keys it has. */
  function GetSetting(key: string, registry: Option<map<string, Value>>, settings: map<string, Value>): (r: Value)
    ensures registry.Some? && key in registry.value ==> r == registry.value[key]
    ensures (registry.None? || key !in registry.value) && key in settings ==> r == settings[key]
    ensures (registry.None? || key !in registry.value) && key !in settings ==> r == Undefined
  {
    if registry.Some? && key in registry.value then registry.value[key]
    else if key in settings then settings[key]
    else Undefined
  }

  /** Without an options object the settings store decides alone, and an
      options object that has the key makes the store irrelevant. */
  lemma RegistryShadowsSettings(key: string, registry: map<string, Value>, s1: map<string, Value>, s2: map<string, Value>)
    ensures key in registry ==> GetSetting(key, Some(registry), s1) == GetSetting(key, Some(registry), s2)
    ensures key !in registry ==> GetSetting(key, Some(registry), s1) == GetSetting(key, None, s1)
  {
  }

  // ------------------------------------------------------------ display name

  /** `task.name || task.fn.displayName || taskId` for the entry `tasks[taskId]`:
      reading `name` of a missing entry, or `displayName` of a missing `fn`,
      is a `TypeError`. The two stubs of the loader are arrow functions without
      a `displayName`. */
  function DisplayName(task: Option<Descriptor>, taskId: string): (r: Result<string>)
    ensures r.Err? <==> task.None? || (task.value.name == "" && task.value.fn.NoFn?)
    ensures r.Err? ==> r.error == TypeError
    ensures r.Ok? && task.value.name != "" ==> r.value == task.value.name
    ensures r.Ok? && task.value.name == "" && task.value.fn.UserFn? && task.value.fn.f.displayName != "" ==>
            r.value == task.value.fn.f.displayName
    ensures r.Ok? && task.value.name == "" && (!task.value.fn.UserFn? || task.value.fn.f.displayName == "") ==>
            r.value == taskId
  {
    match task
    case None => Err(TypeError)
    case Some(t) =>
      if t.name != "" then Ok(t.name)
      else match t.fn
           case NoFn => Err(TypeError)
           case UserFn(f) => Ok(if f.displayName != "" then f.displayName else taskId)
           case _ => Ok(taskId)
  }

  /** The shown name is never empty for a non-empty id: the chain of `||`
      always ends in something truthy. */
  lemma DisplayNameNonEmpty(task: Option<Descriptor>, taskId: string)
    requires taskId != ""
    requires DisplayName(task, taskId).Ok?
    ensures DisplayName(task, taskId).value != ""
  {
  }

  /** The gulp function `_createTask` returns, before it is run. */
  datatype TaskFn = TaskFn(id: string, displayName: string, task: Descriptor)

  /** `_createTask(taskId, tasks, gulp, registry)`: it throws exactly when the
      display name cannot be computed. */
  function CreateTask(taskId: string, tasks: seq<Field<Descriptor>>): (r: Result<TaskFn>)
    ensures r.Ok? <==> taskId in Keys(tasks) && DisplayName(Lookup(tasks, taskId), taskId).Ok?
    ensures r.Ok? ==> && Lookup(tasks, taskId) == Some(r.value.task)
                      && r.value.displayName == DisplayName(Lookup(tasks, taskId), taskId).value
                      && r.value.id == taskId
  {
    match DisplayName(Lookup(tasks, taskId), taskId)
    case Err(e) => Err(e)
    case Ok(name) => Ok(TaskFn(taskId, name, Lookup(tasks, taskId).value))
  }

  // -------------------------------------------------------------- run plans

  /** One argument of `gulp.series`: a task id, a `gulp.parallel` of an id
      group, or the task's own wrapper `_task`. */
  datatype Step = Run(id: string) | Parallel(ids: seq<string>) | Own

  /** How running the gulp function starts: the wrapper at once (no
      dependencies), a `gulp.series` of the dependencies and then the wrapper,
      or, when gulp lacks `series` or `parallel`, `gulp-sequence` over the
      dependencies and the wrapper. */
  datatype Plan = RunNow | Series(steps: seq<Step>) | GulpSequence(deps: seq<Dep>)

  function StepOf(d: Dep): (s: Step)
    ensures !s.Own?
  {
    match d
    case Id(id) => Run(id)
    case Group(ids) => Parallel(ids)
  }

  function DepOf(s: Step): Dep
    requires !s.Own?
  {
    match s
    case Run(id) => Id(id)
    case Parallel(ids) => Group(ids)
  }

  /** The dependency list read back from the series steps that precede the
      wrapper. */
  function DepsOf(steps: seq<Step>): (ds: seq<Dep>)
    requires forall i :: 0 <= i < |steps| ==> !steps[i].Own?
    ensures |ds| == |steps|
  {
    if steps == [] then [] else [DepOf(steps[0])] + DepsOf(steps[1..])
  }

  /** The plan of lib/index.js:45-54 for a task with dependencies `deps`, when
      gulp has (or lacks) `series` and `parallel`. */
  function Compose(deps: seq<Dep>, hasSeries: bool, hasParallel: bool): (p: Plan)
    ensures p.RunNow? <==> deps == []
    ensures p.Series? <==> deps != [] && hasSeries && hasParallel
    ensures p.GulpSequence? ==> p.deps == deps
  {
    if deps == [] then RunNow
    else if hasSeries && hasParallel then
      Series(seq(|deps|, i requires 0 <= i < |deps| => StepOf(deps[i])) + [Own])
    else GulpSequence(deps)
  }

  /** In a series plan the wrapper runs once and last, after every dependency
      in the order given, each id group as one parallel step: reading the
      steps back gives the dependency list. */
  lemma {:induction false} SeriesRunsDepsThenSelf(deps: seq<Dep>)
    requires deps != []
    ensures var p := Compose(deps, true, true);
            && p.Series? && |p.steps| == |deps| + 1 && p.steps[|deps|] == Own
            && (forall i :: 0 <= i < |deps| ==> !p.steps[i].Own?)
            && DepsOf(p.steps[..|deps|]) == deps
  {
    var steps := Compose(deps, true, true).steps[..|deps|];
    assert forall i :: 0 <= i < |deps| ==> steps[i] == StepOf(deps[i]);
    DepsOfSteps(deps, steps);
  }

  lemma {:induction false} DepsOfSteps(deps: seq<Dep>, steps: seq<Step>)
    requires |steps| == |deps|
    requires forall i :: 0 <= i < |deps| ==> steps[i] == StepOf(deps[i])
    requires forall i :: 0 <= i < |steps| ==> !steps[i].Own?
    ensures DepsOf(steps) == deps
  {
    if deps != [] {
      DepsOfSteps(deps[1..], steps[1..]);
    }
  }

  // ------------------------------------------------------------- invocation

  /** The `inject` object of lib/index.js:39: `gulp` and the completion
      closure as `done`. */
  function TaskInject(gulp: Value): (m: map<string, Value>)
    ensures m.Keys == {"gulp", "done"} && m["gulp"] == gulp && m["done"] == Complete
  {
    map["gulp" := gulp, "done" := Complete]
  }

  /** How `_task` calls the task function: directly, when one of the injected
      values is the completion closure (the function signals completion
      itself), or through `asyncDone`, which calls `complete` when the
      function's stream, promise or return settles. */
  datatype Call = Direct(args: seq<Value>) | ThroughAsyncDone(args: seq<Value>)

  /** `task.fn.toString()`, or `None` when there is no `fn` (calling
      `toString` on `undefined` throws). The two stubs of the loader have the
      source texts `DoneStubSource` and `WatcherSource`. */
  function BodySource(fn: Body): Option<string> {
    match fn
    case UserFn(f) => Some(f.source)
    case DoneStub => Some(DoneStubSource)
    case Watcher(_) => Some(WatcherSource)
    case NoFn => None
  }

  /** The body of `_task` up to the call: the injection for the function's
      parameters, then the choice of call. */
  function Invoke(task: Descriptor, gulp: Value, env: Env): (r: Result<Call>)
    ensures task.fn.NoFn? ==> r == Err(TypeError)
    ensures !task.fn.NoFn? ==> var di := GetInjection(BodySource(task.fn).value, TaskInject(gulp), env);
            && (r.Err? <==> di.Err?)
            && (r.Err? ==> r.error == di.error)
            && (r.Ok? ==> r.value.args == di.value && (r.value.Direct? <==> Complete in di.value))
  {
    match BodySource(task.fn)
    case None => Err(TypeError)
    case Some(source) =>
      match GetInjection(source, TaskInject(gulp), env)
      case Err(e) => Err(e)
      case Ok(di) => Ok(if Complete in di then Direct(di) else ThroughAsyncDone(di))
  }

  /** The environment never produces the completion closure: it exists only
      in the `inject` object of one run. */
  ghost predicate Foreign(env: Env) {
    && env.settings != Complete
    && (forall id :: env.load(id) != Returned(Complete))
    && (forall p :: p in env.augment ==> env.augment[p] != Complete)
  }

  /** A task function is called directly exactly when it declares a parameter
      named `done`; otherwise `asyncDone` wraps the call. */
  lemma DirectCallIffDoneParameter(source: string, gulp: Value, env: Env)
    requires gulp != Complete && Foreign(env)
    requires GetInjection(source, TaskInject(gulp), env).Ok?
    ensures Complete in GetInjection(source, TaskInject(gulp), env).value <==> "done" in ParamNames(source)
  {
    var names := NonEmpty(ParamNames(source));
    DoneResolvesToComplete(names, gulp, env);
    assert "done" in names <==> "done" in ParamNames(source);
  }

  /** The same for any list of names resolved against the task injection. */
  lemma DoneResolvesToComplete(names: seq<string>, gulp: Value, env: Env)
    requires gulp != Complete && Foreign(env)
    requires Collect(Resolutions(names, TaskInject(gulp), env)).Ok?
    ensures Complete in Collect(Resolutions(names, TaskInject(gulp), env)).value <==> "done" in names
  {
    var inject := TaskInject(gulp);
    var rs := Resolutions(names, inject, env);
    var di := Collect(rs).value;
    assert |di| == |names| && forall i :: 0 <= i < |names| ==> rs[i] == Ok(di[i]);
    if "done" in names {
      var i :| 0 <= i < |names| && names[i] == "done";
      ExplicitInjectWins("done", inject, env);
      assert di[i] == Complete;
    }
    if Complete in di {
      var i :| 0 <= i < |di| && di[i] == Complete;
      if names[i] != "done" {
        OnlyDoneGivesComplete(names[i], gulp, env);
        assert false;
      }
    }
  }

  /** Only `done` resolves to the completion closure. */
  lemma OnlyDoneGivesComplete(p: string, gulp: Value, env: Env)
    requires gulp != Complete && Foreign(env) && p != "done"
    ensures Resolve(p, TaskInject(gulp), env).Ok? ==> Resolve(p, TaskInject(gulp), env).value != Complete
  {
    ResolveAvoids(p, TaskInject(gulp), env, Complete);
  }

  // ------------------------------------------------------------- completion

  /** The two callbacks `complete` can call: the series' `__done`, then the
      gulp function's own `done`. */
  datatype Callback = InnerDone | OuterDone

  /** The `complete` closure of one run of `_task` together with the
      `isComplete` flag it closes over; `calls` records the callbacks it has
      made. */
  class Completion {
    var isComplete: bool
    var calls: seq<Callback>
    /** `!!__done`: whether `_task` was handed a callback. */
    const hasInner: bool

    /** Both callbacks have been made, once each and inner first, exactly when
        the flag is set. */
    predicate Valid()
      reads this
    {
      calls == if !isComplete then [] else if hasInner then [InnerDone, OuterDone] else [OuterDone]
    }

    constructor(hasInner: bool)
      ensures Valid() && !isComplete && this.hasInner == hasInner
    {
      this.hasInner := hasInner;
      isComplete := false;
      calls := [];
    }

    /** `complete()`: only the first call does anything. */
    method Complete()
      requires Valid()
      modifies this
      ensures Valid() && isComplete
      ensures old(isComplete) ==> calls == old(calls)
      ensures !old(isComplete) ==> calls == old(calls) + (if hasInner then [InnerDone] else []) + [OuterDone]
    {
      if !isComplete {
        isComplete := true;
        if hasInner {
          calls := calls + [InnerDone];
        }
        calls := calls + [OuterDone];
      }
    }
  }

  /** However often `complete` is called, `done` is called once, after
      `__done` when there is one. */
  method CompleteCalledTwice(hasInner: bool) returns (c: Completion)
    ensures c.Valid() && c.isComplete
    ensures c.calls == if hasInner then [InnerDone, OuterDone] else [OuterDone]
  {
    c := new Completion(hasInner);
    c.Complete();
    c.Complete();
  }

  // ----------------------------------------------------------- registration

  /** Whether the attempt to register `id` goes through: `_createTask` does
      not throw and gulp accepts the task, given the ids registered before. */
  predicate Registers(id: string, tasks: seq<Field<Descriptor>>, accept: (string, seq<string>) -> bool, registered: seq<string>) {
    CreateTask(id, tasks).Ok? && accept(id, registered)
  }

  /** The body of the `try` in lib/index.js:69-72 as one test. */
  function Attempt(tasks: seq<Field<Descriptor>>, accept: (string, seq<string>) -> bool): (f: (string, seq<string>) -> bool)
    ensures forall id, registered :: f(id, registered) == Registers(id, tasks, accept, registered)
  {
    (id, registered) => Registers(id, tasks, accept, registered)
  }

  /** Every registered id went through when its turn came. */
  predicate RegisteredInTurn(attempt: (string, seq<string>) -> bool, registered: seq<string>) {
    forall i :: 0 <= i < |registered| ==> attempt(registered[i], registered[..i])
  }

  /** The ids left in the set and the ids registered after one pass. */
  datatype PassResult = PassResult(kept: seq<string>, registered: seq<string>)

  /** One `addTasks()`: the ids of the set visited in order, each registered
      and deleted, or kept when the attempt throws. */
  function Pass(ids: seq<string>, registered: seq<string>, attempt: (string, seq<string>) -> bool): PassResult
    decreases |ids|
  {
    if ids == [] then PassResult([], registered)
    else
      var p := Pass(ids[..|ids| - 1], registered, attempt);
      var id := ids[|ids| - 1];
      if attempt(id, p.registered) then PassResult(p.kept, p.registered + [id])
      else PassResult(p.kept + [id], p.registered)
  }

  /** A pass moves each id either to the registered list or to the kept set. */
  lemma {:induction false} PassPartition(ids: seq<string>, registered: seq<string>, attempt: (string, seq<string>) -> bool)
    ensures var p := Pass(ids, registered, attempt);
            multiset(p.kept) + multiset(p.registered) == multiset(ids) + multiset(registered)
    decreases |ids|
  {
    if ids != [] {
      var n := |ids| - 1;
      var p := Pass(ids[..n], registered, attempt);
      PassPartition(ids[..n], registered, attempt);
      assert ids == ids[..n] + [ids[n]];
      assert multiset(ids) == multiset(ids[..n]) + multiset{ids[n]};
      if attempt(ids[n], p.registered) {
        assert Pass(ids, registered, attempt) == PassResult(p.kept, p.registered + [ids[n]]);
        calc {
          multiset(p.kept) + multiset(p.registered + [ids[n]]);
          multiset(p.kept) + multiset(p.registered) + multiset{ids[n]};
          multiset(ids[..n]) + multiset(registered) + multiset{ids[n]};
          multiset(ids) + multiset(registered);
        }
      } else {
        assert Pass(ids, registered, attempt) == PassResult(p.kept + [ids[n]], p.registered);
        calc {
          multiset(p.kept + [ids[n]]) + multiset(p.registered);
          multiset(p.kept) + multiset(p.registered) + multiset{ids[n]};
          multiset(ids[..n]) + multiset(registered) + multiset{ids[n]};
          multiset(ids) + multiset(registered);
        }
      }
    }
  }

  /** A pass loses no id and adds none. */
  lemma {:induction false} PassLength(ids: seq<string>, registered: seq<string>, attempt: (string, seq<string>) -> bool)
    ensures var p := Pass(ids, registered, attempt);
            |p.kept| + |p.registered| == |ids| + |registered|
    decreases |ids|
  {
    if ids != [] {
      PassLength(ids[..|ids| - 1], registered, attempt);
    }
  }

  /** A pass only appends to the registered list. */
  lemma {:induction false} PassGrows(ids: seq<string>, registered: seq<string>, attempt: (string, seq<string>) -> bool)
    ensures registered <= Pass(ids, registered, attempt).registered
    decreases |ids|
  {
    if ids != [] {
      PassGrows(ids[..|ids| - 1], registered, attempt);
    }
  }

  /** Each id a pass appends went through in its turn. */
  lemma {:induction false} PassInTurn(ids: seq<string>, registered: seq<string>, attempt: (string, seq<string>) -> bool)
    requires RegisteredInTurn(attempt, registered)
    ensures RegisteredInTurn(attempt, Pass(ids, registered, attempt).registered)
    decreases |ids|
  {
    if ids != [] {
      var n := |ids| - 1;
      PassInTurn(ids[..n], registered, attempt);
      var p := Pass(ids[..n], registered, attempt);
      var id := ids[n];
      if attempt(id, p.registered) {
        var r := p.registered + [id];
        forall i | 0 <= i < |r| ensures attempt(r[i], r[..i]) {
          if i < |p.registered| {
            assert r[..i] == p.registered[..i];
          } else {
            assert r[..i] == p.registered;
          }
        }
      }
    }
  }

  /** A pass that registers nothing has found every id rejected, and kept
      the set as it was. */
  lemma {:induction false} PassStable(ids: seq<string>, registered: seq<string>, attempt: (string, seq<string>) -> bool)
    requires Pass(ids, registered, attempt).registered == registered
    ensures forall id :: id in ids ==> !attempt(id, registered)
    ensures Pass(ids, registered, attempt).kept == ids
    decreases |ids|
  {
    if ids != [] {
      var n := |ids| - 1;
      var p := Pass(ids[..n], registered, attempt);
      PassGrows(ids[..n], registered, attempt);
      assert !attempt(ids[n], p.registered);
      assert p.registered == registered;
      PassStable(ids[..n], registered, attempt);
      assert ids == ids[..n] + [ids[n]];
    }
  }

  /** What holds between passes: the ids are split between the registered
      list and the set, and every registration went through in its turn. */
  predicate Progress(ids: seq<string>, attempt: (string, seq<string>) -> bool, registered: seq<string>, pending: seq<string>) {
    && multiset(registered) + multiset(pending) == multiset(ids)
    && RegisteredInTurn(attempt, registered)
  }

  /** A pass keeps the split, never enlarges the set, and leaves it as it was
      only when it registers nothing. */
  lemma PassProgress(all: seq<string>, ids: seq<string>, registered: seq<string>, attempt: (string, seq<string>) -> bool)
    requires Progress(all, attempt, registered, ids)
    ensures var p := Pass(ids, registered, attempt);
            && Progress(all, attempt, p.registered, p.kept)
            && |p.kept| <= |ids|
            && (|p.kept| == |ids| ==> p.registered == registered)
  {
    var p := Pass(ids, registered, attempt);
    PassPartition(ids, registered, attempt);
    PassGrows(ids, registered, attempt);
    PassInTurn(ids, registered, attempt);
    PassLength(ids, registered, attempt);
    assert multiset(p.registered) + multiset(p.kept) == multiset(ids) + multiset(registered);
  }

  /** `addTasks()`: the `forEach` over the set with the `try`/`catch` around
      each registration. */
  method AddPass(ids: seq<string>, registered: seq<string>, tasks: seq<Field<Descriptor>>, accept: (string, seq<string>) -> bool)
    returns (kept: seq<string>, added: seq<string>)
    ensures PassResult(kept, added) == Pass(ids, registered, Attempt(tasks, accept))
  {
    kept, added := [], registered;
    for i := 0 to |ids|
      invariant PassResult(kept, added) == Pass(ids[..i], registered, Attempt(tasks, accept))
    {
      assert ids[..i + 1][..i] == ids[..i];
      var id := ids[i];
      var created := CreateTask(id, tasks);
      if created.Ok? && accept(id, added) {
        added := added + [id];
      } else {
        kept := kept + [id];
      }
    }
    assert ids[..|ids|] == ids;
  }

  /** `_addTasksToGulp(tasks, gulp, registry)`: passes over the ids still
      unregistered until one registers nothing or none is left. Every id of
      `tasks` ends up either registered or left over, as often as it is a key;
      every registration went through in its turn; and each id left over is
      one whose registration still fails given everything registered. */
  method AddTasksToGulp(tasks: seq<Field<Descriptor>>, accept: (string, seq<string>) -> bool)
    returns (registered: seq<string>, pending: seq<string>)
    ensures multiset(registered) + multiset(pending) == multiset(Keys(tasks))
    ensures forall i :: 0 <= i < |registered| ==> Registers(registered[i], tasks, accept, registered[..i])
    ensures forall id :: id in pending ==> !Registers(id, tasks, accept, registered)
  {
    var ids := Keys(tasks);
    ghost var attempt := Attempt(tasks, accept);
    var count := |ids|;
    PassProgress(ids, ids, [], attempt);
    pending, registered := AddPass(ids, [], tasks, accept);
    ghost var last, before := ids, [];
    while count > 0 && count != |pending|
      invariant Progress(ids, attempt, registered, pending)
      invariant |pending| <= count == |last|
      invariant Pass(last, before, attempt) == PassResult(pending, registered)
      invariant |pending| == |last| ==> registered == before
      decreases count
    {
      count := |pending|;
      last, before := pending, registered;
      PassProgress(ids, pending, registered, attempt);
      pending, registered := AddPass(pending, registered, tasks, accept);
    }
    if count != 0 {
      PassStable(last, before, attempt);
      assert pending == last;
    }
  }

  // ------------------------------------------------------------ stub sources

  /** The source text of the stub lib/tree.js:23 gives a bare array of
      dependencies, as `toString` returns it. */
  const DoneStubSource: string := "done=>done" + "()"

  /** The name the watcher as written asks to have injected besides `gulp`,
      and the last argument of its `gulp.watch` call as the text has it. */
  const WatchTasksName: string := "taskExport.watch.tasks"
  const WatchTasksArg: string := " " + WatchTasksName

  /** The source text of the watcher lib/tree.js:31-33 builds for a record
      with a `watch` property, tab-indented as in the file, after the given
      parameter list. */
  function WatcherText(params: string): string {
    params + "=>{\n" + "\t\t\t\tgulp.watch" + "(" + "taskExport.watch.source" + "," + WatchTasksArg + ")" + ";\n\t\t\t}"
  }

  /** The watcher as written: `gulp=>{ ... }`. */
  const WatcherSourceAsWritten: string := WatcherText("gulp")

  /** The watcher with its parameter in parentheses, the form in which
      `getParameters` finds a parameter list; the model runs this one. */
  const WatcherSource: string := WatcherText("(gulp)")

  /** `indexOf` finds `c` at `k` when it occurs there and not before. */
  lemma IndexOfAt(s: string, c: char, k: nat)
    requires k < |s| && s[k] == c && c !in s[..k]
    ensures Strings.IndexOf(s, c) == k
  {
    assert c in s;
  }

  /** The first occurrence of `c` in `a + [c] + b` is right after `a` when `a`
      lacks it. */
  lemma IndexOfAfter(a: string, c: char, b: string)
    requires c !in a
    ensures Strings.IndexOf(a + [c] + b, c) == |a|
  {
    var s := a + [c] + b;
    assert s[..|a|] == a;
    IndexOfAt(s, c, |a|);
  }

  /** A source whose first parenthesis pair is empty and comes before any
      line break yields no non-empty parameter name. */
  lemma EmptyListNames(head: string)
    requires '(' !in head && ')' !in head && forall i :: 0 <= i < |head| ==> !Strings.IsLineTerminator(head[i])
    ensures NonEmpty(ParamNames(head + "()")) == []
  {
    GetParametersIsolates(head, "", "");
    assert head + "(" + "" + ")" + "" == head + "()";
    EmptyParameterList(head + "()");
    assert NonEmpty([""]) == [];
  }

  /** The stub for an array of dependencies, `done=>done()`, declares no
      parameter `getParameters` can see: the text between its first `(` and
      its first `)` is empty, so the stub is called through `asyncDone` with
      no arguments. */
  lemma DoneStubGetsNoArguments(task: Descriptor, gulp: Value, env: Env)
    requires task.fn.DoneStub?
    ensures NonEmpty(ParamNames(DoneStubSource)) == []
    ensures Invoke(task, gulp, env) == Ok(ThroughAsyncDone([]))
  {
    EmptyListNames("done=>done");
    InvokedWithNothing(task, DoneStubSource, gulp, env);
  }

  /** A task whose body asks for nothing is run through `asyncDone` with no
      arguments. */
  lemma InvokedWithNothing(task: Descriptor, source: string, gulp: Value, env: Env)
    requires BodySource(task.fn) == Some(source)
    requires NonEmpty(ParamNames(source)) == []
    ensures Invoke(task, gulp, env) == Ok(ThroughAsyncDone([]))
  {
    assert Resolutions([], TaskInject(gulp), env) == [];
  }

  /** For a source `p a c(x,y)z` whose `)`-free head has no `(` before the
      call and ends its arrow part `a` with a line break, `getParameters`
      drops only the text from the first `)` on: the `^.*?\(` step does not
      match. */
  lemma {:induction false} UnparenthesisedParameterText(p: string, a: string, c: string, x: string, y: string, z: string)
    requires ')' !in p && ')' !in a && ')' !in c && ')' !in x && ')' !in y
    requires '(' !in p && '(' !in a && '(' !in c
    requires a != [] && Strings.IsLineTerminator(a[|a| - 1])
    ensures GetParameters(p + a + c + "(" + x + "," + y + ")" + z) == p + a + c + "(" + x + "," + y
  {
    var h := p + a + c;
    var t := p + a + c + "(" + x + "," + y;
    assert t == h + "(" + (x + "," + y);
    IndexOfAfter(h, '(', x + "," + y);
    assert t[|p| + |a| - 1] == a[|a| - 1];
    BreakBeforeOpen(t, |p| + |a| - 1);
    assert ')' !in t;
    GetParametersUnopened(t, z);
  }

  /** A text with one comma splits into the parts before and after it. */
  lemma CommaPieces(p0: string, y: string)
    requires ',' !in p0 && ',' !in y
    ensures Strings.Split(p0 + "," + y, ',') == [p0, y]
  {
    IndexOfAfter(p0, ',', y);
    var s := p0 + "," + y;
    assert s[|p0| + 1..] == y;
    assert s[..|p0|] == p0;
    assert Strings.IndexOf(y, ',') == -1;
    assert Strings.Split(y, ',') == [y];
    assert Strings.Split(s, ',') == [p0] + [y];
  }

  /** A piece `name=...` with no white space at its ends is named `name`. */
  lemma ArrowPieceName(s: string, name: string)
    requires |name| < |s| && s[..|name|] == name && s[|name|] == '=' && '=' !in name
    requires !Strings.IsWhitespace(s[0]) && !Strings.IsWhitespace(s[|s| - 1])
    requires name != [] && !Strings.IsWhitespace(name[|name| - 1])
    ensures ParamName(s) == name
  {
    Strings.TrimUntrimmed(s);
    IndexOfAt(s, '=', |name|);
    Strings.TrimUntrimmed(name);
  }

  /** A piece of one space and a plain name is named by the name. */
  lemma SpacedPieceName(n: string)
    requires n != [] && !Strings.IsWhitespace(n[0]) && !Strings.IsWhitespace(n[|n| - 1]) && '=' !in n
    ensures ParamName(" " + n) == n
  {
    assert (" " + n)[1..] == n;
    Strings.TrimUntrimmed(n);
    assert Strings.Trim(" " + n) == n;
    assert Strings.IndexOf(n, '=') == -1;
  }

  /** The pieces of such a source: the head with the first argument, and
      the second argument. */
  lemma UnparenthesisedPieces(p: string, a: string, c: string, x: string, y: string, z: string)
    requires ')' !in p && ')' !in a && ')' !in c && ')' !in x && ')' !in y
    requires '(' !in p && '(' !in a && '(' !in c
    requires ',' !in p && ',' !in a && ',' !in c && ',' !in x && ',' !in y
    requires a != [] && Strings.IsLineTerminator(a[|a| - 1])
    ensures Pieces(p + a + c + "(" + x + "," + y + ")" + z) == [p + a + c + "(" + x, y]
  {
    UnparenthesisedParameterText(p, a, c, x, y, z);
    var p0 := p + a + c + "(" + x;
    assert ',' !in p0;
    CommaPieces(p0, y);
  }

  /** The head piece `p=...` of such a source is named `p`. */
  lemma HeadPieceName(p: string, a: string, c: string, x: string)
    requires a != [] && a[0] == '='
    requires p != [] && '=' !in p && !Strings.IsWhitespace(p[0]) && !Strings.IsWhitespace(p[|p| - 1])
    requires x != [] && !Strings.IsWhitespace(x[|x| - 1])
    ensures ParamName(p + a + c + "(" + x) == p
  {
    var p0 := p + a + c + "(" + x;
    assert p0[..|p|] == p && p0[|p|] == '=';
    assert p0[0] == p[0] && p0[|p0| - 1] == x[|x| - 1];
    ArrowPieceName(p0, p);
  }

  /** Two pieces with non-empty names give those two names. */
  lemma TwoPieceNames(src: string, p0: string, y: string, p: string, n: string)
    requires Pieces(src) == [p0, y] && ParamName(p0) == p && ParamName(y) == n
    requires p != [] && n != []
    ensures NonEmpty(ParamNames(src)) == [p, n]
  {
    var names := ParamNames(src);
    ParamNameAt(src, 0);
    ParamNameAt(src, 1);
    assert names[0] == ParamName(p0) && names[1] == ParamName(y);
    assert names == [p, n];
    assert names[1..] == [n] && names[1..][1..] == [];
  }

  /** The names `getParameters` and the pieces yield for such a source whose
      head is `p=...` and whose second argument is ` n`: `p` and `n`. */
  lemma UnparenthesisedNames(p: string, a: string, c: string, x: string, y: string, z: string, n: string)
    requires y == " " + n
    requires ')' !in p && ')' !in a && ')' !in c && ')' !in x && ')' !in n
    requires '(' !in p && '(' !in a && '(' !in c
    requires ',' !in p && ',' !in a && ',' !in c && ',' !in x && ',' !in n
    requires a != [] && a[0] == '=' && Strings.IsLineTerminator(a[|a| - 1])
    requires p != [] && '=' !in p && !Strings.IsWhitespace(p[0]) && !Strings.IsWhitespace(p[|p| - 1])
    requires x != [] && !Strings.IsWhitespace(x[|x| - 1])
    requires n != [] && '=' !in n && !Strings.IsWhitespace(n[0]) && !Strings.IsWhitespace(n[|n| - 1])
    ensures NonEmpty(ParamNames(p + a + c + "(" + x + "," + y + ")" + z)) == [p, n]
  {
    assert ')' !in y && ',' !in y;
    UnparenthesisedPieces(p, a, c, x, y, z);
    HeadPieceName(p, a, c, x);
    SpacedPieceName(n);
    TwoPieceNames(p + a + c + "(" + x + "," + y + ")" + z, p + a + c + "(" + x, y, p, n);
  }

  /** The watched-sources argument holds neither `)` nor `,`. */
  lemma WatchSourceArgPlain()
    ensures ')' !in "taskExport.watch.source" && ',' !in "taskExport.watch.source"
  {
  }

  /** The tasks name holds no character the parameter parsing treats
      specially. */
  lemma WatchTasksNamePlain()
    ensures ')' !in WatchTasksName && ',' !in WatchTasksName && '=' !in WatchTasksName
  {
  }

  /** The tasks name has no white space at its ends. */
  lemma WatchTasksNameTrimmed()
    ensures !Strings.IsWhitespace(WatchTasksName[0]) && !Strings.IsWhitespace(WatchTasksName[|WatchTasksName| - 1])
  {
  }

  /** As written, the watcher's source yields two parameter names: `gulp`,
      read off before the `=>`, and the last argument of the `gulp.watch`
      call, because the first `)` of the text closes that call and a line
      break comes before the first `(`. */
  lemma WatcherAsWrittenParameters()
    ensures NonEmpty(ParamNames(WatcherSourceAsWritten)) == ["gulp", WatchTasksName]
  {
    WatchSourceArgPlain();
    WatchTasksNamePlain();
    WatchTasksNameTrimmed();
    UnparenthesisedNames("gulp", "=>{\n", "\t\t\t\tgulp.watch", "taskExport.watch.source", WatchTasksArg, ";\n\t\t\t}", WatchTasksName);
  }

  /** A function whose parameter names are `gulp` and a name `n` that no
      module answers to fails with the `RangeError` for `n`. */
  lemma SecondNameMissing(source: string, n: string, gulp: Value, env: Env)
    requires NonEmpty(ParamNames(source)) == ["gulp", n]
    requires Truthy(gulp) && !gulp.Str?
    requires n != "gulp" && n != "done" && n !in env.augment
    requires n != "settings" && n != "getModule" && n != "gutil"
    requires !Accepts(env.load("gulp-" + env.kebab(n)))
    requires !Accepts(env.load(env.kebab(n)))
    requires !Accepts(env.load(n))
    ensures GetInjection(source, TaskInject(gulp), env) == Err(RangeError(NotFoundMessage(n)))
  {
    GulpThenMissing(n, gulp, env);
    SecondNameUnresolved(source, "gulp", n, TaskInject(gulp), env);
  }

  /** Against the task injection, `gulp` resolves to the given `gulp` and a
      name no module answers to fails with its `RangeError`. */
  lemma GulpThenMissing(n: string, gulp: Value, env: Env)
    requires Truthy(gulp) && !gulp.Str?
    requires n != "gulp" && n != "done" && n !in env.augment
    requires n != "settings" && n != "getModule" && n != "gutil"
    requires !Accepts(env.load("gulp-" + env.kebab(n)))
    requires !Accepts(env.load(env.kebab(n)))
    requires !Accepts(env.load(n))
    ensures Resolve("gulp", TaskInject(gulp), env) == Ok(gulp)
    ensures Resolve(n, TaskInject(gulp), env) == Err(RangeError(NotFoundMessage(n)))
  {
    var inject := TaskInject(gulp);
    ExplicitInjectWins("gulp", inject, env);
    assert n !in inject;
    PlainRequireIsLast(n, inject, env);
  }

  /** Hence running a watch task as written fails with a `RangeError` for the
      name `taskExport.watch.tasks` unless some module answers to it. */
  lemma WatcherAsWrittenThrows(gulp: Value, env: Env)
    requires Truthy(gulp) && !gulp.Str?
    requires WatchTasksName !in env.augment
    requires !Accepts(env.load("gulp-" + env.kebab(WatchTasksName)))
    requires !Accepts(env.load(env.kebab(WatchTasksName)))
    requires !Accepts(env.load(WatchTasksName))
    ensures GetInjection(WatcherSourceAsWritten, TaskInject(gulp), env) == Err(RangeError(NotFoundMessage(WatchTasksName)))
  {
    WatcherAsWrittenParameters();
    SecondNameMissing(WatcherSourceAsWritten, WatchTasksName, gulp, env);
  }

  /** A function whose two parameter names resolve, the first to a value and
      the second to an error, gets that error from `getInjection`. */
  lemma SecondNameUnresolved(source: string, first: string, second: string, inject: map<string, Value>, env: Env)
    requires NonEmpty(ParamNames(source)) == [first, second]
    requires Resolve(first, inject, env).Ok? && Resolve(second, inject, env).Err?
    ensures GetInjection(source, inject, env) == Err(Resolve(second, inject, env).error)
  {
    var r0, r1 := Resolve(first, inject, env), Resolve(second, inject, env);
    var rs := Resolutions([first, second], inject, env);
    assert rs == [r0, r1];
    CollectPair(r0, r1);
  }

  /** A task whose body asks for `gulp` alone is run through `asyncDone` with
      `gulp` as its one argument. */
  lemma InvokedWithGulp(task: Descriptor, source: string, gulp: Value, env: Env)
    requires BodySource(task.fn) == Some(source)
    requires NonEmpty(ParamNames(source)) == ["gulp"]
    requires GulpInstance(gulp)
    ensures Invoke(task, gulp, env) == Ok(ThroughAsyncDone([gulp]))
  {
    InjectsGulpOnly(source, gulp, env);
    assert Complete !in [gulp];
  }

  /** What the loader is given as `gulp`: a truthy value that is not a
      string (an injected string would be read as a module id) and not the
      completion closure. */
  predicate GulpInstance(gulp: Value) {
    Truthy(gulp) && !gulp.Str? && gulp != Complete
  }

  /** `Collect` of a value and a failure is the failure. */
  lemma CollectPair(r0: Result<Value>, r1: Result<Value>)
    requires r0.Ok? && r1.Err?
    ensures Collect([r0, r1]) == Err(r1.error)
  {
    assert [r0, r1][1..] == [r1];
  }

  /** `Collect` of one value is that value. */
  lemma CollectOne(r0: Result<Value>)
    requires r0.Ok?
    ensures Collect([r0]) == Ok([r0.value])
  {
    assert [r0][1..] == [];
    assert [r0.value] + [] == [r0.value];
  }

  /** A function whose one parameter name is `gulp` gets exactly the given
      `gulp`. */
  lemma InjectsGulpOnly(source: string, gulp: Value, env: Env)
    requires NonEmpty(ParamNames(source)) == ["gulp"]
    requires Truthy(gulp) && !gulp.Str?
    ensures GetInjection(source, TaskInject(gulp), env) == Ok([gulp])
  {
    ExplicitInjectWins("gulp", TaskInject(gulp), env);
    var r0 := Resolve("gulp", TaskInject(gulp), env);
    assert r0 == Ok(gulp);
    assert Resolutions(["gulp"], TaskInject(gulp), env) == [r0];
    CollectOne(r0);
  }

  /** A source of this shape that opens with a parenthesised list `(n)`
      has that list as its parameter text. */
  lemma {:induction false} ParenthesisedParameterText(q: string, n: string, a: string, c: string, x: string, y: string, z: string)
    requires q == "(" + n + ")" && '(' !in n && ')' !in n
    ensures GetParameters(q + a + c + "(" + x + "," + y + ")" + z) == n
  {
    var tail := a + c + "(" + x + "," + y + ")" + z;
    assert q + a + c + "(" + x + "," + y + ")" + z == q + tail;
    assert "" + "(" + n + ")" + tail == q + tail;
    GetParametersIsolates("", n, tail);
  }

  /** A parameter text that is one plain name gives that name alone. */
  lemma OneName(src: string, n: string)
    requires GetParameters(src) == n
    requires n != [] && ',' !in n && '=' !in n
    requires !Strings.IsWhitespace(n[0]) && !Strings.IsWhitespace(n[|n| - 1])
    ensures NonEmpty(ParamNames(src)) == [n]
  {
    assert Strings.IndexOf(n, ',') == -1 && Strings.IndexOf(n, '=') == -1;
    assert Strings.Split(n, ',') == [n];
    assert Pieces(src) == [n];
    Strings.TrimUntrimmed(n);
    assert Strings.Split(n, '=') == [n];
    assert ParamName(n) == n;
    var names := ParamNames(src);
    ParamNameAt(src, 0);
    assert names == [n];
    assert names[1..] == [];
  }

  /** Such a source that opens with `(n)`, for a plain name `n`, asks for
      `n` alone. */
  lemma ParenthesisedNames(q: string, n: string, a: string, c: string, x: string, y: string, z: string)
    requires q == "(" + n + ")"
    requires n != [] && '(' !in n && ')' !in n && ',' !in n && '=' !in n
    requires !Strings.IsWhitespace(n[0]) && !Strings.IsWhitespace(n[|n| - 1])
    ensures NonEmpty(ParamNames(q + a + c + "(" + x + "," + y + ")" + z)) == [n]
  {
    ParenthesisedParameterText(q, n, a, c, x, y, z);
    OneName(q + a + c + "(" + x + "," + y + ")" + z, n);
  }

  /** The corrected watcher asks for `gulp` alone. */
  lemma WatcherParameters()
    ensures NonEmpty(ParamNames(WatcherSource)) == ["gulp"]
  {
    ParenthesisedNames("(gulp)", "gulp", "=>{\n", "\t\t\t\tgulp.watch", "taskExport.watch.source", WatchTasksArg, ";\n\t\t\t}");
  }

  /** So the corrected watcher receives `gulp` and nothing else, and is run
      through `asyncDone`. */
  lemma WatcherGetsGulp(task: Descriptor, gulp: Value, env: Env)
    requires task.fn.Watcher?
    requires GulpInstance(gulp)
    ensures Invoke(task, gulp, env) == Ok(ThroughAsyncDone([gulp]))
  {
    WatcherAsksForGulp(task.fn);
    InvokedWithGulp(task, BodySource(task.fn).value, gulp, env);
  }

  /** The watcher body's source text asks for `gulp` alone. */
  lemma WatcherAsksForGulp(fn: Body)
    requires fn.Watcher?
    ensures BodySource(fn).Some? && NonEmpty(ParamNames(BodySource(fn).value)) == ["gulp"]
  {
    WatcherParameters();
  }
}
