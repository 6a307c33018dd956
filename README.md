# gulp task loader, modelled in Dafny

This project models the core of a gulp plugin, `importTasks`. The plugin builds gulp tasks from a directory tree of task
files. Each `.js`/`.json` file under a root's task directory is one task:
- a function export is the task body;
- an array export is a list of dependencies;
- a record export can give `deps`, `fn`, `name` and a `watch` description.

Sub-directories nest task ids with `:`. For example, `build/css.js` becomes the task `build:css`. A dependency holding
a `*` expands to the ids of the tasks that the glob matches, and each resulting task is registered with gulp.

Registration works like this:
- a task with dependencies runs them in a `gulp.series` before itself, or through `gulp-sequence` when gulp has no
  `series`/`parallel`;
- the task body's parameters are read from its source text and injected by name. The candidates are the `gulp`
  instance, the `done` callback, the settings, a module getter, and modules loaded by name.

The modules follow the program's files:

| module | models |
|---|---|
| `Js` | JavaScript values and truthiness, `Result`/`Option`, errors |
| `Objects` | plain objects as ordered property lists (`forOwn`/`Object.keys` order, assignment) |
| `Strings` | `trim`, `split`, `indexOf`, substring search, digits |
| `Consts` | the regular expressions of `lib/consts.js`, each by what it matches |
| `Util` | `replaceSequence`, `getParameters`, `parseParameters` (`lib/util.js`) |
| `Tree` | `_loadTask`, `_tree`, `tree` over a modelled file system (`lib/tree.js`) |
| `Tasks` | `_parentId`, `_replaceGlobDeps`, `_parseDeps`, `_createTasks` (`lib/tasks.js`) |
| `Di` | the injection resolvers, `_getModule`, `getInjection` (`lib/di.js`) |
| `Index` | `getSetting`, `_createTask`, the completion callback, `_addTasksToGulp` (`lib/index.js`) |
| `Log` | `_getTimeNowString` and `log` (`lib/log.js`) |

The form of the model follows the source:
- Code that updates state in place is modelled imperatively:
  - the structure object that `_tree` fills is the class `Tree.Structure`;
  - the task object that `_createTasks` fills and `_parseDeps` rewrites is the class `Tasks.TaskTable`;
  - the `isComplete` flag of the completion callback is the class `Index.Completion`;
  - the loops of `replaceSequence`, `_parseDeps`, `_getModule`, `addTasks` and `parseParameters` are `while`/`for`
    loops.
- Each method is proved against a function of its inputs. The properties the source promises are proved about that
  function.
- Expressions and recursion are modelled as functions and lemmas.

Where the code and its design description disagree, the model follows the code:
- A wildcard dependency that matches no task id is left in place, not dropped (lib/tasks.js:27).
- An explicitly injected non-string value is used only when it is truthy. A falsy one falls through to the other
  resolvers (lib/di.js:10, 65).
- Tasks given as a bare array of dependencies get the stub `done=>done()`. `getParameters` finds no parameter list in
  its text, so the stub is called with no arguments, through `asyncDone` (lib/tree.js:23).

## Model

| member | source | states |
|---|---|---|
| Consts.JsExtensionLength | lib/consts.js:4 | `xIsJsFile` matches a name ending in `.js` or `.json` in any letter case, and nothing else; the length of the match is 3, 5 or 0 |
| Consts.StripJsExtension | lib/tasks.js:76 | a name that `xIsJsFile` does not match is kept unchanged; otherwise exactly its `.js` or `.json` suffix is removed and the result is a prefix of the name |
| Consts.QuotedInner | lib/consts.js:5 | `xQuoted` matches exactly when the text starts and ends with the same single or double quote and has no line break; group 2 is the text between the quotes |
| Consts.KeywordValue | lib/consts.js:10 | `paramDefaultMatchers` has exactly `null`, `undefined`, `true` and `false`; only `true` maps to a truthy value |
| Consts.PreFunctionParamsMatch | lib/consts.js:8 | `xPreFunctionParams` matches exactly when the text has a `)`; the match runs from the first `)` to the end |
| Consts.PostFunctionParamsMatch | lib/consts.js:9 | `xPostFunctionParams` matches exactly when a `(` occurs with no line break before the first one; the match runs from the start through that `(` |
| Util.ReplaceFirstText | lib/util.js:57 | a string search replaces only its first occurrence: nothing before it occurs, and the text after it is kept |
| Util.ApplyAllConcat | lib/util.js:56-58 | applying a sequence of replacements in two parts gives the same text as applying it at once |
| Util.ReplaceSequence | lib/util.js:51-63 | the loop applies every replacement of the sequence in order, each to the result of the one before |
| Util.ReplacerComposes | lib/util.js:52-62 | the function `replaceSequence` returns without text leaves text unchanged for an empty sequence, does one first-occurrence replacement for a single operation, and for a sequence in two parts applies the second part's function to the first part's result |
| Util.GetParametersIsolates | lib/util.js:7 | for a source `head(params)tail` whose head has no parenthesis and no line break, `getParameters` gives exactly `params` |
| Util.GetParametersUnopened | lib/util.js:7 | when `xPostFunctionParams` does not match the text before the first `)`, `getParameters` gives that whole text |
| Util.ClassificationUnambiguous | lib/util.js:79-98 | a default value is classified as quoted, keyword, integer, float, JSON or raw text, each exactly under its test and the earlier tests failing; each fallback holds what the branch computes (inner text, keyword value, `parseInt` value, the text) |
| Util.ExponentDefaultIsTruncated | lib/util.js:86-92 | an example of the integer branch: the default `1e3` is numeric without a `.`, so it becomes the integer `parseInt` reads, 1, not 1000 |
| Util.DefaultTextBetween | lib/util.js:78 | for `name = default = more` the name is the trimmed text before the first `=` and the default is only the middle part |
| Util.ParamNameAt | lib/util.js:75-101 | the i-th parameter name and parsed piece come from the i-th comma-separated piece of the parameter text |
| Util.EmptyParameterList | lib/util.js:75 | an empty parameter text gives the single name `""` |
| Util.NamesAreClean | lib/util.js:75-78 | no parameter name holds `,` or `=`, or starts or ends with whitespace |
| Util.DefaultsOfDomain | lib/util.js:79-99 | a name has a default exactly when some piece of that name has a non-empty default text |
| Util.DefaultsOfLast | lib/util.js:79-99 | when a name is repeated, the last piece with a default decides it |
| Util.ParseParameters | lib/util.js:72-106 | `parseParameters` returns the names of the pieces and the map of their defaults |
| Util.CollectParameters | lib/util.js:75-102 | the loop over the pieces gives, in order, the names and the defaults of the parsed pieces |
| Strings.TrimSpec | lib/util.js:76 | `trim` removes exactly the leading and trailing whitespace and line terminators |
| Strings.IndexOf | lib/tasks.js:42 | `indexOf` gives -1 exactly when the character is absent, and otherwise its first position |
| Strings.JoinSplit | lib/util.js:75 | joining the pieces of `split` with the separator gives back the text |
| Strings.SplitJoin | lib/util.js:75 | splitting a join of separator-free pieces gives back the pieces |
| Objects.PutLookup | lib/tasks.js:61 | after an assignment the key reads as the new value, and every other key reads as before |
| Objects.PutWellFormed | lib/tasks.js:61 | assignment keeps the property names distinct |
| Tasks.ParentId | lib/tasks.js:75-77 | the full id is the parent followed by the id, minus only a trailing `.js`/`.json` |
| Tasks.GlobMeaning | lib/tasks.js:21-24 | the glob test holds exactly when the text before the first `*`, then a stretch with no line break, then the text after it, occur in the id |
| Tasks.StarMatchesAll | lib/tasks.js:21-24 | the pattern `*` matches every id |
| Tasks.TrailingStarMatchesAnyPrefix | lib/tasks.js:21-24 | the pattern is not anchored at the start: a star-free text followed by `*` matches any id that ends with that text, whatever comes before it |
| Tasks.GlobIsUnanchored | lib/tasks.js:21-24 | an example of that: `build*` matches `prebuild` |
| Tasks.Found | lib/tasks.js:22-25 | the ids found are exactly the task ids that the glob matches |
| Tasks.FoundConcat | lib/tasks.js:22-25 | the filter keeps the order of the task ids: the ids found among two lists in a row are those found in the first followed by those found in the second, and none are found among no ids |
| Tasks.FoundSingle | lib/tasks.js:22-25 | a single id is found exactly when the glob matches it |
| Tasks.ReplaceGlobDeps | lib/tasks.js:20-30 | a matched glob is replaced in place by the ids found, in the order of the task ids, with the dependencies before and after it unchanged, and the loop steps back one; an unmatched one stays and the loop goes on; an array dependency raises a `TypeError` |
| Tasks.StarIdRewinds | lib/tasks.js:28-29 | with the task id `a*` and the dependency list `["a*"]`, the splice gives back the same list and the index -1, so the loop repeats |
| Tasks.ExpandDeps | lib/tasks.js:41-43 | the loop over one task's dependencies computes each dependency's expansion in order, or the error |
| Tasks.ExpandedIdempotent | lib/tasks.js:39-47 | expanding an expanded dependency list changes nothing |
| Tasks.LeftoverGlobsMatchNothing | lib/tasks.js:27 | a wildcard left after expansion matches no task id and was one of the original dependencies |
| Tasks.ParseKeys | lib/tasks.js:40-46 | expanding the dependencies keeps the task ids in their order |
| Tasks.TaskTable.ParseDeps | lib/tasks.js:39-47 | every task's dependencies are expanded against the table's ids; the result is the error of the first task that fails, if any |
| Tasks.TaskTable.Assign | lib/tasks.js:61 | assigns one task under its id |
| Tasks.ParseErrorSpreads | lib/tasks.js:40-44 | once a task fails, the whole parse fails with that error |
| Tasks.ParseIdempotent | lib/tasks.js:39-47 | parsing an already-parsed table changes nothing |
| Tasks.VisitKeys | lib/tasks.js:59-62 | walking a tree keeps the ids distinct; the ids after the walk are the ids before plus the leaf ids of the tree |
| Tasks.CreatedKeys | lib/tasks.js:58-65 | the task table holds exactly the ids of the tree's leaves, each without duplicates |
| Tasks.LeafIdsStarFree | lib/tasks.js:60-61 | a tree whose names have no `*` gives leaf ids without `*` |
| Tasks.ParseKeysWellFormed | lib/tasks.js:64 | parsing keeps a table's ids distinct |
| Tasks.VisitErrorSpreads | lib/tasks.js:59-62 | an error in one entry ends the walk with that error |
| Tasks.ParseWithFields | lib/tasks.js:39-47 | parsing keeps each task at its place and id and with every field but `deps` unchanged; its `deps` is that task's expanded list |
| Tasks.ParseSameButDeps | lib/tasks.js:39-47 | a parse differs from the table it parses only in dependency lists |
| Tasks.FlatLookup | lib/tasks.js:59-62 | the walk without parses stores under an id the task of the last leaf with that id, and leaves ids without a leaf as they were |
| Tasks.LastLeafIds | lib/tasks.js:59-62 | some leaf has the id exactly when it is one of the tree's leaf ids |
| Tasks.VisitFlat | lib/tasks.js:59-62 | the walk of `_createTasks`, with its nested parses, gives the walk without parses up to dependency lists |
| Tasks.CreatedFlat | lib/tasks.js:58-65 | so does `_createTasks` as a whole, with its final parse |
| Tasks.CreatedLookup | lib/tasks.js:58-65 | `_createTasks` holds a task under an id exactly when a leaf has that id or the table had it; the task is that of the last leaf with the id, or the one it had, equal in all fields but `deps` |
| Tasks.CreateTasks | lib/tasks.js:58-65 | `_createTasks` fills the table by walking the tree, recursing into directories, and then parses the dependencies; the result is the walk's table or its error |
| Tree.LoadTask | lib/tree.js:19-36 | a function, array or record export gives a descriptor with the given cwd and path; any other export gives nothing |
| Tree.LoadTaskFields | lib/tree.js:22-34 | the descriptor's deps, fn and name per kind of export: a function is the body with no deps; an array is the deps with the `done` stub; a record has its own deps, with a `watch` giving the watcher body |
| Tree.Structure.Assign | lib/tree.js:59 | stores one entry on the structure |
| Tree.Scan | lib/tree.js:48-76 | `_tree` visits the listed entries in order; a directory stores its own sub-structure, a loadable `.js`/`.json` file its descriptor, and anything else nothing |
| Tree.ScanOverlay | lib/tree.js:54-72 | scanning onto a structure that already has properties overlays the scan on them |
| Tree.ScanLast | lib/tree.js:59-63 | when a name is stored twice, the last store wins |
| Tree.ScanUntouched | lib/tree.js:58-71 | names the scan stores nothing under keep their value |
| Tree.ScanKeys | lib/tree.js:54-75 | a scan keeps the existing names, in their order, and keeps them distinct |
| Tree.BuildTree | lib/tree.js:87-91 | `tree` scans each root's task directory into one shared structure, in order |
| Tree.LastRootWins | lib/tree.js:89 | a later root's entries override an earlier root's under the same name |
| Di.Merged | lib/di.js:62 | the inject object is the settings' `augment.inject` under the caller's inject, which wins on shared keys |
| Di.Outcomes | lib/di.js:8-23 | each parameter is offered to exactly the six resolvers, in order |
| Di.FirstAcceptedMeaning | lib/di.js:56-70 | the module is the value of the first resolver that returns something truthy; every resolver before it threw or returned something falsy; when none accepts, the error is the `RangeError` that names the parameter |
| Di.SkipRejected | lib/di.js:56-67 | resolvers that reject can be skipped without changing the result |
| Di.GetModule | lib/di.js:49-71 | the loop over the resolvers computes the resolution and stops at the first resolver that accepts: on success the last resolver tried accepted and none before it did, and on failure all six were tried and none accepted |
| Di.ExplicitInjectWins | lib/di.js:9-11 | a truthy non-string inject value for the parameter is the result |
| Di.FalsyInjectFallsThrough | lib/di.js:9-11 | a falsy non-string inject value falls through to the later resolvers |
| Di.InjectedStringIsLoaded | lib/di.js:12-14 | a string inject value is loaded as a module id |
| Di.SettingsParameter | lib/di.js:16 | the parameter `settings` gets the settings, unless an inject names it |
| Di.PlainRequireIsLast | lib/di.js:20-22 | a parameter that no inject and no special name covers is loaded as `gulp-<kebab>`, then as `<kebab>`, then as itself, or fails with the `RangeError` |
| Di.ResolveAvoids | lib/di.js:8-23 | a value that no inject, setting or module supplies is never the resolution |
| Di.NonEmpty | lib/di.js:76 | the empty parameter names are dropped, and only those |
| Di.NonEmptyConcat | lib/di.js:76 | the filter keeps order: filtering two lists in a row gives the first's kept names followed by the second's |
| Di.NonEmptySingle | lib/di.js:76 | a single name is kept exactly when it is not empty |
| Di.Collect | lib/di.js:77 | the injection is every resolution in order, or the first error |
| Di.ResolutionsConcat | lib/di.js:77 | the names are resolved one by one with the same inject: the resolutions of two lists in a row are those of the first followed by those of the second, and no names give none |
| Index.GetSetting | lib/index.js:11-14 | the registry's own value if it has the key, else the settings store's, else `undefined` |
| Index.RegistryShadowsSettings | lib/index.js:12 | a key in the registry ignores the settings store; a key not in it reads as with no registry |
| Index.DisplayName | lib/index.js:57 | the display name is the task's name, else its function's `displayName`, else the task id; a task with neither a name nor a function raises a `TypeError` |
| Index.DisplayNameNonEmpty | lib/index.js:57 | with a non-empty task id the display name is never empty |
| Index.CreateTask | lib/index.js:23-60 | `_createTask` gives a gulp function for the id's task, named by its display name; it fails exactly when the id is missing or the name lookup throws |
| Index.StepOf | lib/index.js:47-49 | an array dependency becomes a `gulp.parallel` step; a string stays a task id |
| Index.Compose | lib/index.js:45-54 | with no deps the task runs at once; with `series` and `parallel` it runs through a series; otherwise through `gulp-sequence` with the same deps |
| Index.SeriesRunsDepsThenSelf | lib/index.js:46-50 | the series runs one step per dependency, in order, then the task itself |
| Index.TaskInject | lib/index.js:39 | the inject object offers exactly `gulp` and the completion callback as `done` |
| Index.Invoke | lib/index.js:39-41 | the task body is called with the injection; it is called directly exactly when the injection holds the completion callback, and otherwise through `asyncDone`; injection errors propagate |
| Index.DirectCallIffDoneParameter | lib/index.js:39-41 | a task body is called directly exactly when it declares a parameter named `done` |
| Index.DoneResolvesToComplete | lib/index.js:39-40 | among resolved names, only `done` resolves to the completion callback |
| Index.Completion.Complete | lib/index.js:31-37 | the first call runs the inner `done` if given, then the outer `done`; later calls do nothing |
| Index.CompleteCalledTwice | lib/index.js:31-37 | calling the completion callback twice runs the callbacks once |
| Index.PassPartition | lib/index.js:68-74 | after one pass every id is either registered or kept |
| Index.PassLength | lib/index.js:68-74 | one pass neither loses nor adds ids |
| Index.PassGrows | lib/index.js:68-74 | one pass only adds to the registered ids |
| Index.PassInTurn | lib/index.js:68-74 | each id is registered given the ids registered before it |
| Index.PassStable | lib/index.js:78 | a pass that registers nothing leaves every id kept, and none of them can be registered now |
| Index.PassProgress | lib/index.js:66-78 | a pass keeps the split of the ids, never enlarges the set, and keeps it only when it registers nothing |
| Index.AddPass | lib/index.js:66-75 | one `addTasks()` visits the pending ids in order, registering and deleting each that succeeds |
| Index.AddTasksToGulp | lib/index.js:62-79 | repeating passes until one registers nothing splits the ids into registered and pending. Each registered id succeeded given the ids before it, and no pending id can be registered now |
| Index.DoneStubGetsNoArguments | lib/tree.js:23 | the `done` stub of an array export has no parameter names, so it is called through `asyncDone` with no arguments |
| Index.UnparenthesisedParameterText | lib/util.js:7 | when a line break comes before the first `(`, `getParameters` keeps all the text before the first `)` |
| Index.SecondNameUnresolved | lib/di.js:77 | when the first of two names resolves and the second fails, the injection fails with the second's error |
| Index.InjectsGulpOnly | lib/index.js:39 | a body whose only parameter is `gulp` is injected the gulp instance |
| Index.WatcherAsWrittenParameters | lib/tree.js:31-33 | the watcher as written yields the parameter names `gulp` and `taskExport.watch.tasks` |
| Index.WatcherAsWrittenThrows | lib/tree.js:31-33 | so injecting the watcher as written fails with the `RangeError` for `taskExport.watch.tasks` |
| Index.WatcherParameters | lib/tree.js:31-33 | the watcher with its parameter in parentheses yields the single name `gulp` |
| Index.WatcherGetsGulp | lib/tree.js:31-33 | the corrected watcher is called through `asyncDone` with the gulp instance |
| Log.Pad2 | lib/log.js:15 | numbers up to 9 get a leading zero; the digits read back as the number, two of them for any clock value |
| Log.TimeStringRoundTrip | lib/log.js:13-16 | the time stamp is 8 characters `hh:mm:ss` and reads back as the hours, minutes and seconds |
| Log.TimeStringInjective | lib/log.js:13-16 | different times give different stamps |
| Log.Log | lib/log.js:30-43 | a silent `log` prints nothing and returns `""`; otherwise it prints and returns the trimmed message on the given console method, coloured unless `color` is an own falsy flag; a missing console method throws a `TypeError` |
| Log.PlainMessage | lib/log.js:39 | the plain message is `[time] name details` when the details end in a non-space |
| Log.PlainMessageWithoutDetails | lib/log.js:39 | with no details the trailing space is trimmed, leaving `[time] name` |

## Findings

| source | as written | input that shows it | evidently intended | confidence | as-written member | corrected member |
|---|---|---|---|---|---|---|
| lib/tasks.js:28-29, 41-42 | After a splice `_replaceGlobDeps` returns `depId-1`, so the loop of `_parseDeps` resumes on the first inserted id. When that id itself holds a `*` that its own glob matches, the same splice happens again with the same list, and the loop never ends. | a task with id `a*` whose dependency list is `["a*"]` | the loop ends because the ids put in place of a glob are never expanded again, which holds when no task id contains `*` | not executed | Tasks.StarIdRewinds | Tasks.ExpandDeps |
| lib/tree.js:31-33 | The watcher stub for a record with `watch` is an arrow function with a bare parameter, `gulp=>{...}`. `getParameters` strips from the first `)` on, then strips up to the first `(` on the first line. The stub's first `(` lies after a line break, so the parameter text becomes everything before the first `)`. The names are then `gulp` and `taskExport.watch.tasks`, and the second cannot be injected. | a task file whose record export has a `watch` property, with no module named `taskExport.watch.tasks` | the watcher is called with the gulp instance, which needs the parameter in parentheses, `(gulp)=>{...}` | not executed | Index.WatcherAsWrittenThrows | Index.WatcherGetsGulp |

The rest of the model uses the corrected watcher for the `Watcher` body, and expands dependencies only over star-free
ids, where `Tasks.ExpandDeps` is proved to end with `Tasks.Expanded`.

## Left out

- File system and `require`: directory listings, `statSync` results and the outcome of loading each file are a modelled
  tree (`Tree.FsNode`), not I/O. `path.join` is a plain `/` join without normalisation. The filter for `.` and `..`
  is not modelled, because the modelled listing never contains them.
- The `cwd` argument of `tree` when it differs from the root: the model always scans each root with itself as cwd, as
  `importTasks` calls it.
- Debug logging in `_tree`, `_createTask` and `_addTasksToGulp`: output only. So are the `console.log` and
  `console.error` of `_tree` when a task file fails to load (lib/tree.js:66-67), which are not gated by debug; the
  model keeps only that nothing is stored for such a file.
- `createTasks` and `importTasks` (the merging of `argv.root` and the registry): argument plumbing outside the
  modelled core.
- lodash `kebabCase`, module loading (`require`/`require-like`) and settings import with its memoisation: parameters of
  `Di.Env`. The `getModule` closure is the single value `ModuleGetter`, and `gulp-util` loading is `load("gulp-util")`.
- `_getModule` with an array of parameter names is left out: the only caller passes one name.
- Regular-expression metacharacters in glob dependencies other than the first `*`: the rest of the pattern is treated as
  literal text.
- Tasks.ExpandDeps: requires that no task id contains `*`, and Tasks.CreateTasks that no file or directory name does.
  With such an id, a glob that matches it makes the source's loop run forever, so the model leaves those trees out.
- Tasks.CreatedLookup: states the dependency lists of the created tasks only through `Tasks.Expanded`, not exactly,
  because each nested `_parseDeps` of a sub-directory expands globs against the ids present at that moment.
- Tasks.TaskTable.ParseDeps: on a `TypeError` the source leaves the table partly rewritten; the contract states only the
  error, not the partial table.
- Directories that contain an entry named `deps` or `fn`, and records with an own falsy `deps`: `_createTasks` would
  treat them as tasks and the model does not.
- Property order for integer-like keys: objects are modelled in insertion order only.
- Floating-point parsing of default values: a float default keeps its text (`Util.Default.Float`), not the number.
- `JSON.parse` itself: a JSON default keeps its text, which is parsed only when the provider is called.
- gulp itself, `asyncDone` and `gulp-sequence`: the model gives the plan (`Index.Plan`) and the call kind
  (`Index.Call`), not their execution. Return values of task functions are not modelled.
- turbocolor: the colouring functions are the `Log.Palette` parameter. The system clock is a parameter of `Log.Log`.
  Non-string, non-`Date` values for `now` and the default parameters of `log` are not modelled.
- The `in` operator of `getSetting` also sees inherited properties; the model looks at own properties only.
- Util.IsNumeric: does not model the overflow of a decimal literal to `Infinity`. `isFinite("1e400")` is false in the
  source, while the model classifies `1e400` as numeric.
- Util.ReplaceFirst: does not interpret `$&`, `$n` and the other replacement patterns of `String.prototype.replace`
  in the replacement text. The only caller, `getParameters`, replaces with `''`, where they cannot occur.
