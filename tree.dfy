/** lib/tree.js: loading one task file into a task descriptor (`_loadTask`)
    and scanning task directories into a nested structure (`_tree`, `tree`).
    The file system is a value: a directory is the list of what it contains,
    in the order `readdirSync` lists it, and a file is the outcome of
    `require`-ing it. */
module Tree {
  import opened Js
  import opened Consts
  import opened Objects

  /** A task function: its source text (what `toString` returns, which
      parameter injection parses) and its `displayName` property, `""` when
      that is absent or falsy. */
  datatype Fn = Fn(source: string, displayName: string)

  /** One entry of a `deps` array: a task id, or an array of ids that runs in
      parallel. */
  datatype Dep = Id(id: string) | Group(ids: seq<string>)

  /** The `watch` property of a task record: the globs and the tasks handed to
      `gulp.watch`. */
  datatype Watch = Watch(source: seq<string>, tasks: seq<string>)

  /** The `fn` of a descriptor: the exported function, the `done=>done()` stub
      given to a bare array of dependencies, the watcher built for a record with
      a `watch` property, or nothing at all. */
  datatype Body = UserFn(f: Fn) | DoneStub | Watcher(watch: Watch) | NoFn

  /** A loaded task: `deps`, `fn`, `cwd`, `path` and `name` (`""` when absent
      or falsy). */
  datatype Descriptor = Descriptor(deps: seq<Dep>, fn: Body, cwd: string, path: string, name: string)

  /** What a task file exports. A record lists the properties the loader and
      the tasks layer read; `deps` is `None` when the record has no such
      property. `OtherExport` is any primitive value. */
  datatype Export =
    | FunctionExport(f: Fn)
    | ArrayExport(items: seq<Dep>)
    | RecordExport(deps: Option<seq<Dep>>, fn: Option<Fn>, name: string, watch: Option<Watch>)
    | OtherExport

  /** `_loadTask(filePath, cwd)` given the module `require` returned. */
  function LoadTask(exp: Export, filePath: string, cwd: string): (r: Option<Descriptor>)
    ensures r.None? <==> exp.OtherExport?
    ensures r.Some? ==> r.value.cwd == cwd && r.value.path == filePath
  {
    match exp
    case FunctionExport(f) => Some(Descriptor([], UserFn(f), cwd, filePath, ""))
    case ArrayExport(items) => Some(Descriptor(items, DoneStub, cwd, filePath, ""))
    case RecordExport(deps, fn, name, watch) =>
      var ds := if deps.Some? then deps.value else [];
      var body := if watch.Some? then Watcher(watch.value) else if fn.Some? then UserFn(fn.value) else NoFn;
      Some(Descriptor(ds, body, cwd, filePath, name))
    case OtherExport => None
  }

  /** What a loaded descriptor holds for each kind of export: a bare function
      has no dependencies, an array is all dependencies and gets the stub, a
      record's `watch` outranks its `fn`, and only a record has a name. */
  lemma LoadTaskFields(exp: Export, filePath: string, cwd: string)
    requires !exp.OtherExport?
    ensures var d := LoadTask(exp, filePath, cwd).value;
            && d.deps == (match exp
                          case ArrayExport(items) => items
                          case RecordExport(Some(ds), _, _, _) => ds
                          case _ => [])
            && d.fn == (match exp
                        case FunctionExport(f) => UserFn(f)
                        case ArrayExport(_) => DoneStub
                        case RecordExport(_, _, _, Some(w)) => Watcher(w)
                        case RecordExport(_, Some(f), _, None) => UserFn(f)
                        case _ => NoFn)
            && d.name == (if exp.RecordExport? then exp.name else "")
  {
  }

  /** A node of the task structure: a sub-directory's own structure, or a task. */
  datatype Node = Dir(entries: seq<Field<Node>>) | Leaf(task: Descriptor)

  /** `require(filePath)` either returns the module or throws. */
  datatype LoadOutcome = Loaded(exp: Export) | Throws

  /** What `statSync` reports for a path: a file, a directory, or something
      that is neither. */
  datatype FsNode = File(outcome: LoadOutcome) | Directory(children: seq<FsEntry>) | Special

  datatype FsEntry = FsEntry(name: string, node: FsNode)

  /** `path.join(dir, name)`, without normalisation. */
  function JoinPath(dir: string, name: string): string {
    if name == "" then dir else dir + "/" + name
  }

  /** `filesInDirectory`: what `readdirSync` lists, or nothing when the path is
      not a readable directory (the error is swallowed). */
  function Listing(dir: FsNode): (cs: seq<FsEntry>)
    ensures forall i :: 0 <= i < |cs| ==> cs[i] < dir
    ensures dir.Directory? ==> cs == dir.children
    ensures !dir.Directory? ==> cs == []
  {
    if dir.Directory? then dir.children else []
  }

  /** What one listed entry of the directory at `dirPath` stores under its
      name: a sub-directory becomes its own structure, a `.js`/`.json` file the
      descriptor it loads to; a file that throws, loads to nothing or has
      another extension, and anything that is neither file nor directory,
      stores nothing. */
  function Stored(c: FsEntry, dirPath: string, cwd: string, ghost parent: FsNode): (r: Option<Node>)
    requires c < parent
    decreases parent, 0
  {
    var filePath := JoinPath(dirPath, c.name);
    match c.node
    case Directory(children) =>
      Some(Dir(ScanList([], children, filePath, cwd, c.node)))
    case File(outcome) =>
      if IsJsFile(filePath) && outcome.Loaded? then
        match LoadTask(outcome.exp, filePath, cwd)
        case Some(d) => Some(Leaf(d))
        case None => None
      else None
    case Special => None
  }

  /** The structure `es` after the entries `cs` of the directory at `dirPath`
      are visited in order, each assigning what it stores. */
  function ScanList(es: seq<Field<Node>>, cs: seq<FsEntry>, dirPath: string, cwd: string, ghost parent: FsNode): seq<Field<Node>>
    requires forall i :: 0 <= i < |cs| ==> cs[i] < parent
    decreases parent, |cs|
  {
    if cs == [] then es
    else
      var c := cs[|cs| - 1];
      var front := ScanList(es, cs[..|cs| - 1], dirPath, cwd, parent);
      match Stored(c, dirPath, cwd, parent)
      case Some(n) => Put(front, c.name, n)
      case None => front
  }

  /** A task structure under construction, an object whose properties the
      scan assigns one at a time. */
  class Structure {
    var entries: seq<Field<Node>>

    constructor()
      ensures entries == []
    {
      entries := [];
    }

    /** `structure[key] = node`. */
    method Assign(key: string, node: Node)
      modifies this
      ensures entries == Put(old(entries), key, node)
    {
      entries := Put(entries, key, node);
    }
  }

  /** The body of `_tree` once the directory to list is known: every listed
      entry is stat-ed and stored, sub-directories through a recursive scan
      into a fresh structure. */
  method Scan(s: Structure, dir: FsNode, dirPath: string, cwd: string)
    modifies s
    ensures s.entries == ScanList(old(s.entries), Listing(dir), dirPath, cwd, dir)
    decreases dir
  {
    var files := Listing(dir);
    for i := 0 to |files|
      invariant s.entries == ScanList(old(s.entries), files[..i], dirPath, cwd, dir)
    {
      var c := files[i];
      var filePath := JoinPath(dirPath, c.name);
      ScanStep(old(s.entries), files, i, dirPath, cwd, dir);
      match c.node {
        case Directory(children) =>
          var sub := new Structure();
          Scan(sub, c.node, filePath, cwd);
          assert Stored(c, dirPath, cwd, dir) == Some(Dir(sub.entries));
          s.Assign(c.name, Dir(sub.entries));
        case File(outcome) =>
          if IsJsFile(filePath) {
            match outcome {
              case Loaded(exp) =>
                var d := LoadTask(exp, filePath, cwd);
                assert Stored(c, dirPath, cwd, dir) == if d.Some? then Some(Leaf(d.value)) else None;
                if d.Some? {
                  s.Assign(c.name, Leaf(d.value));
                }
              case Throws =>
                assert Stored(c, dirPath, cwd, dir) == None;
            }
          } else {
            assert Stored(c, dirPath, cwd, dir) == None;
          }
        case Special =>
          assert Stored(c, dirPath, cwd, dir) == None;
      }
    }
    assert files[..|files|] == files;
  }

  /** Visiting one more entry assigns what it stores, if anything. */
  lemma ScanStep(es: seq<Field<Node>>, cs: seq<FsEntry>, i: nat, dirPath: string, cwd: string, parent: FsNode)
    requires i < |cs| && forall j :: 0 <= j < |cs| ==> cs[j] < parent
    ensures ScanList(es, cs[..i + 1], dirPath, cwd, parent) ==
            match Stored(cs[i], dirPath, cwd, parent)
            case Some(n) => Put(ScanList(es, cs[..i], dirPath, cwd, parent), cs[i].name, n)
            case None => ScanList(es, cs[..i], dirPath, cwd, parent)
  {
    assert cs[..i + 1][..i] == cs[..i];
    assert cs[..i + 1][i] == cs[i];
  }

  /** A root directory: its path, and what lies at that path joined with the
      `taskDir` setting. */
  datatype Root = Root(path: string, tasks: FsNode)

  /** The structure after the roots are scanned in order into one object; each
      root is its own `cwd`. */
  function MergeRoots(roots: seq<Root>, taskDir: string): seq<Field<Node>>
    decreases |roots|
  {
    if roots == [] then []
    else
      var r := roots[|roots| - 1];
      ScanList(MergeRoots(roots[..|roots| - 1], taskDir), Listing(r.tasks), JoinPath(r.path, taskDir), r.path, r.tasks)
  }

  /** `tree(roots)`: `_tree(root, root, structure)` for each root in turn, on a
      shared structure. At the top of a root `cwd` equals the root, so the
      listed directory is the root joined with `taskDir`. */
  method BuildTree(roots: seq<Root>, taskDir: string) returns (s: Structure)
    ensures fresh(s)
    ensures s.entries == MergeRoots(roots, taskDir)
  {
    s := new Structure();
    for i := 0 to |roots|
      invariant s.entries == MergeRoots(roots[..i], taskDir)
    {
      var r := roots[i];
      var tasksDir := JoinPath(r.path, taskDir);
      assert roots[..i + 1][..i] == roots[..i];
      Scan(s, r.tasks, tasksDir, r.path);
    }
    assert roots[..|roots|] == roots;
  }

  /** `a`, or `b` where `a` has nothing. */
  function Overlay(a: Option<Node>, b: Option<Node>): Option<Node> {
    if a.Some? then a else b
  }

  /** Scanning onto a structure that already has properties overlays the scan
      on them: a name the scan stores reads as the scan left it, any other reads
      as before. */
  lemma {:induction false} ScanOverlay(es: seq<Field<Node>>, cs: seq<FsEntry>, dirPath: string, cwd: string, parent: FsNode, k: string)
    requires forall i :: 0 <= i < |cs| ==> cs[i] < parent
    ensures Lookup(ScanList(es, cs, dirPath, cwd, parent), k) ==
            Overlay(Lookup(ScanList([], cs, dirPath, cwd, parent), k), Lookup(es, k))
    decreases |cs|
  {
    if cs != [] {
      var c := cs[|cs| - 1];
      var front := cs[..|cs| - 1];
      ScanOverlay(es, front, dirPath, cwd, parent, k);
      match Stored(c, dirPath, cwd, parent) {
        case Some(n) =>
          PutLookup(ScanList(es, front, dirPath, cwd, parent), c.name, n, k);
          PutLookup(ScanList([], front, dirPath, cwd, parent), c.name, n, k);
        case None =>
      }
    }
  }

  /** Within one directory the last entry of a name that stores something
      decides what the name holds (a `foo.js` listed twice, or met again in a
      later root). */
  lemma {:induction false} ScanLast(es: seq<Field<Node>>, cs: seq<FsEntry>, dirPath: string, cwd: string, parent: FsNode, i: nat)
    requires forall j :: 0 <= j < |cs| ==> cs[j] < parent
    requires i < |cs| && Stored(cs[i], dirPath, cwd, parent).Some?
    requires forall j :: i < j < |cs| ==> cs[j].name != cs[i].name || Stored(cs[j], dirPath, cwd, parent).None?
    ensures Lookup(ScanList(es, cs, dirPath, cwd, parent), cs[i].name) == Stored(cs[i], dirPath, cwd, parent)
    decreases |cs|
  {
    var n := |cs| - 1;
    var c := cs[n];
    var front := cs[..n];
    var before := ScanList(es, front, dirPath, cwd, parent);
    if i == n {
      PutLookup(before, c.name, Stored(c, dirPath, cwd, parent).value, c.name);
    } else {
      assert front[i] == cs[i];
      assert forall j :: i < j < n ==> front[j] == cs[j];
      ScanLast(es, front, dirPath, cwd, parent, i);
      assert Lookup(before, cs[i].name) == Stored(cs[i], dirPath, cwd, parent);
      match Stored(c, dirPath, cwd, parent) {
        case Some(node) =>
          assert c.name != cs[i].name;
          PutLookup(before, c.name, node, cs[i].name);
        case None =>
      }
    }
  }

  /** A name that no entry stores anything under reads as before the scan. */
  lemma {:induction false} ScanUntouched(es: seq<Field<Node>>, cs: seq<FsEntry>, dirPath: string, cwd: string, parent: FsNode, k: string)
    requires forall j :: 0 <= j < |cs| ==> cs[j] < parent
    requires forall j :: 0 <= j < |cs| ==> cs[j].name != k || Stored(cs[j], dirPath, cwd, parent).None?
    ensures Lookup(ScanList(es, cs, dirPath, cwd, parent), k) == Lookup(es, k)
    decreases |cs|
  {
    if cs != [] {
      var n := |cs| - 1;
      var c := cs[n];
      var front := cs[..n];
      assert forall j :: 0 <= j < n ==> front[j] == cs[j];
      ScanUntouched(es, front, dirPath, cwd, parent, k);
      var before := ScanList(es, front, dirPath, cwd, parent);
      match Stored(c, dirPath, cwd, parent) {
        case Some(node) =>
          assert c.name != k;
          assert ScanList(es, cs, dirPath, cwd, parent) == Put(before, c.name, node);
          PutLookup(before, c.name, node, k);
        case None =>
          assert ScanList(es, cs, dirPath, cwd, parent) == before;
      }
    }
  }

  /** Scanning keeps the names already present first and in their order, and
      never gives a structure a name twice. */
  lemma {:induction false} ScanKeys(es: seq<Field<Node>>, cs: seq<FsEntry>, dirPath: string, cwd: string, parent: FsNode)
    requires forall i :: 0 <= i < |cs| ==> cs[i] < parent
    ensures Keys(es) <= Keys(ScanList(es, cs, dirPath, cwd, parent))
    ensures WellFormed(es) ==> WellFormed(ScanList(es, cs, dirPath, cwd, parent))
    decreases |cs|
  {
    if cs != [] {
      var n := |cs| - 1;
      ScanStep(es, cs, n, dirPath, cwd, parent);
      assert cs[..n + 1] == cs;
      ScanKeys(es, cs[..n], dirPath, cwd, parent);
      var front := ScanList(es, cs[..n], dirPath, cwd, parent);
      StoreKeys(front, cs[n].name, Stored(cs[n], dirPath, cwd, parent), ScanList(es, cs, dirPath, cwd, parent));
      assert Keys(es) == Keys(front)[..|Keys(es)|];
    }
  }

  /** Storing an optional node under a name keeps the names there were, in
      their order, and keeps them distinct. */
  lemma StoreKeys(front: seq<Field<Node>>, name: string, o: Option<Node>, out: seq<Field<Node>>)
    requires out == match o case Some(n) => Put(front, name, n) case None => front
    ensures Keys(front) <= Keys(out)
    ensures WellFormed(front) ==> WellFormed(out)
  {
    if o.Some? && WellFormed(front) {
      PutWellFormed(front, name, o.value);
    }
  }

  /** With several roots, a later root's entry replaces an earlier root's entry
      of the same name outright (a whole sub-directory, not merged), and names
      the later root does not store keep what the earlier roots gave them. */
  lemma LastRootWins(roots: seq<Root>, r: Root, taskDir: string, k: string)
    ensures Lookup(MergeRoots(roots + [r], taskDir), k) ==
            Overlay(Lookup(MergeRoots([r], taskDir), k), Lookup(MergeRoots(roots, taskDir), k))
  {
    var all := roots + [r];
    assert all[..|all| - 1] == roots;
    assert [r][..0] == [];
    ScanOverlay(MergeRoots(roots, taskDir), Listing(r.tasks), JoinPath(r.path, taskDir), r.path, r.tasks, k);
  }
}
