/** lib/tasks.js: flattening the task structure into a table of qualified task
    ids (`_createTasks`, `_parentId`) and expanding `*` globs in dependency
    lists against the ids known at the time (`_parseDeps`, `_replaceGlobDeps`). */
module Tasks {
  import opened Js
  import opened Strings
  import opened Consts
  import opened Objects
  import opened Tree

  /** `_parentId(parent, id)`: the parent prefix followed by the id with a
      trailing `.js`/`.json` (any case) removed. */
  function ParentId(parent: string, id: string): (r: string)
    ensures parent <= r && |r| <= |parent| + |id|
    ensures r[|parent|..] == id[..|r| - |parent|]
    ensures |r| == |parent| + |id| <==> !IsJsFile(id)
    ensures IsJsFile(id) ==> EqualsIgnoreCase(id[|r| - |parent|..], ".js") || EqualsIgnoreCase(id[|r| - |parent|..], ".json")
  {
    parent + StripJsExtension(id)
  }

  // ---------------------------------------------------------------------------
  // Glob matching: `new RegExp(dep.replace('*', '.*?')).test(id)`.

  /** The text before the first `*` of a dependency. */
  function Before(pat: string): string
    requires '*' in pat
  {
    pat[..IndexOf(pat, '*')]
  }

  /** The text after the first `*` of a dependency. */
  function After(pat: string): string
    requires '*' in pat
  {
    pat[IndexOf(pat, '*') + 1..]
  }

  /** No line terminator in `id[a..b]`: what `.*?` can stretch over. */
  predicate NoBreak(id: string, a: int, b: int) {
    forall k :: a <= k < b && 0 <= k < |id| ==> !IsLineTerminator(id[k])
  }

  /** The regular expression `pre.*?post` matches `id` with `pre` at `a` and
      `post` at `m`. */
  predicate MatchesAt(id: string, pre: string, post: string, a: int, m: int) {
    OccursAt(id, pre, a) && a + |pre| <= m && OccursAt(id, post, m) && NoBreak(id, a + |pre|, m)
  }

  /** `post` occurs at `j` or further on, with no line terminator crossed. */
  function PostFrom(id: string, post: string, j: nat): bool
    decreases |id| - j
  {
    OccursAt(id, post, j) || (j < |id| && !IsLineTerminator(id[j]) && PostFrom(id, post, j + 1))
  }

  /** The unanchored search of `test`: try each start position from `i` on. */
  function SearchFrom(id: string, pre: string, post: string, i: nat): bool
    decreases |id| - i
  {
    (OccursAt(id, pre, i) && PostFrom(id, post, i + |pre|)) || (i < |id| && SearchFrom(id, pre, post, i + 1))
  }

  /** `finder.test(id)` for the finder built from the dependency `pat`. */
  function GlobTest(pat: string, id: string): bool
    requires '*' in pat
  {
    SearchFrom(id, Before(pat), After(pat), 0)
  }

  lemma {:induction false} PostFromMeaning(id: string, post: string, j: nat)
    ensures PostFrom(id, post, j) <==> exists m :: j <= m && OccursAt(id, post, m) && NoBreak(id, j, m)
    decreases |id| - j
  {
    if j < |id| {
      PostFromMeaning(id, post, j + 1);
    }
    if PostFrom(id, post, j) && !OccursAt(id, post, j) {
      var m :| j + 1 <= m && OccursAt(id, post, m) && NoBreak(id, j + 1, m);
      assert NoBreak(id, j, m);
    }
    if exists m :: j <= m && OccursAt(id, post, m) && NoBreak(id, j, m) {
      var m :| j <= m && OccursAt(id, post, m) && NoBreak(id, j, m);
      if m != j {
        assert NoBreak(id, j + 1, m);
      }
    }
  }

  lemma {:induction false} SearchFromSound(id: string, pre: string, post: string, i: nat)
    requires SearchFrom(id, pre, post, i)
    ensures exists a, m :: i <= a && MatchesAt(id, pre, post, a, m)
    decreases |id| - i
  {
    if OccursAt(id, pre, i) && PostFrom(id, post, i + |pre|) {
      PostFromMeaning(id, post, i + |pre|);
      var m :| i + |pre| <= m && OccursAt(id, post, m) && NoBreak(id, i + |pre|, m);
      assert MatchesAt(id, pre, post, i, m);
    } else {
      SearchFromSound(id, pre, post, i + 1);
      var a, m :| i + 1 <= a && MatchesAt(id, pre, post, a, m);
      assert i <= a;
    }
  }

  lemma {:induction false} SearchFromComplete(id: string, pre: string, post: string, i: nat, a: int, m: int)
    requires i <= a && MatchesAt(id, pre, post, a, m)
    ensures SearchFrom(id, pre, post, i)
    decreases a - i
  {
    if a == i {
      PostFromMeaning(id, post, i + |pre|);
      assert i + |pre| <= m && OccursAt(id, post, m) && NoBreak(id, i + |pre|, m);
    } else {
      SearchFromComplete(id, pre, post, i + 1, a, m);
    }
  }

  lemma SearchFromMeaning(id: string, pre: string, post: string, i: nat)
    ensures SearchFrom(id, pre, post, i) <==> exists a, m :: i <= a && MatchesAt(id, pre, post, a, m)
  {
    if SearchFrom(id, pre, post, i) {
      SearchFromSound(id, pre, post, i);
    }
    if exists a, m :: i <= a && MatchesAt(id, pre, post, a, m) {
      var a, m :| i <= a && MatchesAt(id, pre, post, a, m);
      SearchFromComplete(id, pre, post, i, a, m);
    }
  }

  /** The finder matches exactly when `id` holds the text before the star and,
      somewhere after it on the same line, the text after the star. Nothing
      anchors the match. */
  lemma GlobMeaning(pat: string, id: string)
    requires '*' in pat
    ensures GlobTest(pat, id) <==> exists a, m :: MatchesAt(id, Before(pat), After(pat), a, m)
  {
    SearchFromMeaning(id, Before(pat), After(pat), 0);
  }

  /** The dependency `*` matches every task id. */
  lemma StarMatchesAll(id: string)
    ensures GlobTest("*", id)
  {
    assert IndexOf("*", '*') == 0;
    assert Before("*") == "" && After("*") == "";
    assert MatchesAt(id, "", "", 0, 0);
    GlobMeaning("*", id);
  }

  /** Because the finder is not anchored, `build*` also matches `prebuild`. */
  lemma GlobIsUnanchored()
    ensures GlobTest("build*", "prebuild")
  {
    assert '*' !in "build";
    TrailingStarMatchesAnyPrefix("build", "pre");
    assert "build" + "*" == "build*" && "pre" + "build" == "prebuild";
  }

  /** A dependency `p*` matches every id that contains `p`, wherever. */
  lemma TrailingStarMatchesAnyPrefix(p: string, front: string)
    requires '*' !in p
    ensures GlobTest(p + "*", front + p)
  {
    var pat, id := p + "*", front + p;
    assert pat[..|p|] == p && pat[|p|] == '*';
    assert IndexOf(pat, '*') == |p|;
    assert Before(pat) == p && After(pat) == "";
    assert id[|front|..|front| + |p|] == p;
    assert MatchesAt(id, p, "", |front|, |id|);
    GlobMeaning(pat, id);
  }

  // ---------------------------------------------------------------------------
  // `_replaceGlobDeps` and `_parseDeps` on one dependency list.

  /** The task ids matched by the dependency `pat`, in key order. */
  function Found(keys: seq<string>, pat: string): (r: seq<string>)
    requires '*' in pat
    ensures forall x :: x in r <==> x in keys && GlobTest(pat, x)
    ensures |r| <= |keys|
  {
    if keys == [] then []
    else (if GlobTest(pat, keys[0]) then [keys[0]] else []) + Found(keys[1..], pat)
  }

  /** The filter keeps the key order: the ids found among two runs of keys
      are those of the first run followed by those of the second, and one key
      is found exactly when the glob matches it. */
  lemma {:induction false} FoundConcat(a: seq<string>, b: seq<string>, pat: string)
    requires '*' in pat
    ensures Found(a + b, pat) == Found(a, pat) + Found(b, pat)
    ensures Found([], pat) == []
    decreases |a|
  {
    if a != [] {
      assert (a + b)[0] == a[0] && (a + b)[1..] == a[1..] + b;
      FoundConcat(a[1..], b, pat);
    } else {
      assert a + b == b;
    }
  }

  /** One key is found exactly when the glob matches it. */
  lemma FoundSingle(k: string, pat: string)
    requires '*' in pat
    ensures Found([k], pat) == if GlobTest(pat, k) then [k] else []
  {
    assert [k][1..] == [];
  }

  /** No id contains a `*`. */
  predicate StarFree(keys: seq<string>) {
    forall k :: k in keys ==> '*' !in k
  }

  /** `deps[depNo].indexOf('*') !== -1`: a string holding a `*`, or an array
      holding the element `"*"`. */
  predicate HasStar(d: Dep) {
    match d
    case Id(s) => '*' in s
    case Group(ids) => "*" in ids
  }

  /** Ids as dependencies. */
  function Ids(ss: seq<string>): (ds: seq<Dep>)
    ensures |ds| == |ss| && forall i :: 0 <= i < |ss| ==> ds[i] == Id(ss[i])
  {
    if ss == [] then [] else [Id(ss[0])] + Ids(ss[1..])
  }

  /** `_replaceGlobDeps(tasks, deps, depId)`: the new dependency list and the
      index returned. An array holding `"*"` has no `replace`: a `TypeError`. */
  function ReplaceGlobDeps(keys: seq<string>, deps: seq<Dep>, depId: nat): (r: Result<(seq<Dep>, int)>)
    requires depId < |deps| && HasStar(deps[depId])
    ensures r.Err? <==> deps[depId].Group?
    ensures r.Ok? ==> var (ds, next) := r.value;
                      && depId <= |ds| && ds[..depId] == deps[..depId]
                      && (if Found(keys, deps[depId].id) == [] then ds == deps && next == depId
                          else |ds| == |deps| - 1 + |Found(keys, deps[depId].id)| && next == depId - 1
                               && ds[depId..depId + |Found(keys, deps[depId].id)|] == Ids(Found(keys, deps[depId].id))
                               && ds[depId + |Found(keys, deps[depId].id)|..] == deps[depId + 1..])
  {
    match deps[depId]
    case Group(_) => Err(TypeError)
    case Id(s) =>
      var found := Found(keys, s);
      if found == [] then Ok((deps, depId))
      else Ok((deps[..depId] + Ids(found) + deps[depId + 1..], depId - 1))
  }

  /** A task id holding a `*` that its own glob matches: with the id `a*` and
      the dependency `a*`, the splice puts `a*` back where it was and steps
      back to -1, so the loop of `_parseDeps` comes back to index 0 with the
      same list and never ends. */
  lemma StarIdRewinds()
    ensures ReplaceGlobDeps(["a*"], [Id("a*")], 0) == Ok(([Id("a*")], -1))
  {
    var pat := "a*";
    assert IndexOf(pat, '*') == 1;
    assert Before(pat) == "a" && After(pat) == "";
    assert MatchesAt(pat, "a", "", 0, 2);
    GlobMeaning(pat, pat);
    assert ["a*"][1..] == [];
    assert Found(["a*"], pat) == ["a*"];
    assert Ids(["a*"]) == [Id("a*")];
  }

  /** What one dependency becomes: a glob is replaced by the ids it matches
      or, when it matches none, left as it is. */
  function ExpandOne(keys: seq<string>, d: Dep): Result<seq<Dep>> {
    match d
    case Id(s) =>
      if '*' in s && Found(keys, s) != [] then Ok(Ids(Found(keys, s))) else Ok([d])
    case Group(ids) =>
      if "*" in ids then Err(TypeError) else Ok([d])
  }

  /** `pre` in front of a successful result. */
  function Prepend(pre: seq<Dep>, r: Result<seq<Dep>>): Result<seq<Dep>> {
    match r
    case Ok(xs) => Ok(pre + xs)
    case Err(e) => Err(e)
  }

  /** The dependency list with every dependency expanded on its own. */
  function Expanded(keys: seq<string>, deps: seq<Dep>): Result<seq<Dep>>
    decreases |deps|
  {
    if deps == [] then Ok([])
    else
      match ExpandOne(keys, deps[0])
      case Err(e) => Err(e)
      case Ok(xs) => Prepend(xs, Expanded(keys, deps[1..]))
  }

  /** The number of dependencies holding a star. */
  function StarCount(ds: seq<Dep>): nat
    decreases |ds|
  {
    if ds == [] then 0 else (if HasStar(ds[0]) then 1 else 0) + StarCount(ds[1..])
  }

  lemma {:induction false} StarCountConcat(a: seq<Dep>, b: seq<Dep>)
    ensures StarCount(a + b) == StarCount(a) + StarCount(b)
    decreases |a|
  {
    if a == [] {
      assert a + b == b;
    } else {
      assert (a + b)[1..] == a[1..] + b;
      StarCountConcat(a[1..], b);
    }
  }

  lemma {:induction false} StarCountIds(ss: seq<string>)
    requires StarFree(ss)
    ensures StarCount(Ids(ss)) == 0
    decreases |ss|
  {
    if ss != [] {
      assert Ids(ss)[1..] == Ids(ss[1..]);
      assert ss[0] in ss;
      StarCountIds(ss[1..]);
    }
  }

  /** Star-free ids expand to themselves. */
  lemma {:induction false} ExpandedIds(keys: seq<string>, ss: seq<string>, rest: seq<Dep>)
    requires StarFree(ss)
    ensures Expanded(keys, Ids(ss) + rest) == Prepend(Ids(ss), Expanded(keys, rest))
    decreases |ss|
  {
    if ss == [] {
      assert Ids(ss) + rest == rest;
      match Expanded(keys, rest) {
        case Ok(xs) => assert [] + xs == xs;
        case Err(_) =>
      }
    } else {
      var all := Ids(ss) + rest;
      var head := [Id(ss[0])];
      assert all[0] == Id(ss[0]);
      assert ss[0] in ss;
      assert ExpandOne(keys, all[0]) == Ok(head);
      assert all[1..] == Ids(ss[1..]) + rest;
      assert Expanded(keys, all) == Prepend(head, Expanded(keys, Ids(ss[1..]) + rest));
      ExpandedIds(keys, ss[1..], rest);
      PrependConcat(head, Ids(ss[1..]), Expanded(keys, rest));
      assert head + Ids(ss[1..]) == Ids(ss);
    }
  }

  lemma PrependConcat(a: seq<Dep>, b: seq<Dep>, r: Result<seq<Dep>>)
    ensures Prepend(a, Prepend(b, r)) == Prepend(a + b, r)
  {
    match r {
      case Ok(xs) => assert a + (b + xs) == (a + b) + xs;
      case Err(_) =>
    }
  }

  /** The `for` loop of `_parseDeps` over one task's dependency list, calling
      `_replaceGlobDeps` on every dependency holding a star and resuming at the
      index it returns plus one. After a splice the loop steps onto the first
      inserted id; with star-free ids it never expands one again, which is what
      makes the loop end. */
  method ExpandDeps(keys: seq<string>, deps: seq<Dep>) returns (r: Result<seq<Dep>>)
    requires StarFree(keys)
    ensures r == Expanded(keys, deps)
  {
    var ds := deps;
    var depNo: int := 0;
    ExpandStart(keys, deps);
    while depNo < |ds|
      invariant ExpandInv(keys, deps, ds, depNo)
      decreases StarCount(ds[depNo..]), |ds| - depNo
    {
      if HasStar(ds[depNo]) {
        var step := ReplaceGlobDeps(keys, ds, depNo);
        if step.Err? {
          ExpandFails(keys, deps, ds, depNo);
          return Err(step.error);
        }
        if step.value.1 < depNo {
          ExpandSplice(keys, deps, ds, depNo);
        } else {
          ExpandKeep(keys, deps, ds, depNo);
        }
        ds, depNo := step.value.0, step.value.1;
      } else {
        ExpandKeep(keys, deps, ds, depNo);
      }
      depNo := depNo + 1;
    }
    ExpandEnd(keys, deps, ds, depNo);
    r := Ok(ds);
  }

  /** The loop invariant of `ExpandDeps`: the dependencies before `depNo` are
      final, and expanding the rest yields the expansion of the original list. */
  predicate ExpandInv(keys: seq<string>, deps: seq<Dep>, ds: seq<Dep>, depNo: int) {
    0 <= depNo <= |ds| && Expanded(keys, deps) == Prepend(ds[..depNo], Expanded(keys, ds[depNo..]))
  }

  lemma ExpandStart(keys: seq<string>, deps: seq<Dep>)
    ensures ExpandInv(keys, deps, deps, 0)
  {
    assert deps[..0] == [] && deps[0..] == deps;
    match Expanded(keys, deps) {
      case Ok(xs) => assert [] + xs == xs;
      case Err(_) =>
    }
  }

  lemma ExpandEnd(keys: seq<string>, deps: seq<Dep>, ds: seq<Dep>, depNo: int)
    requires ExpandInv(keys, deps, ds, depNo) && depNo >= |ds|
    ensures Expanded(keys, deps) == Ok(ds)
  {
    assert ds[..depNo] == ds && ds[depNo..] == [];
    assert Expanded(keys, []) == Ok([]);
    assert ds + [] == ds;
  }

  /** A dependency that stays as it is is passed over. */
  lemma ExpandKeep(keys: seq<string>, deps: seq<Dep>, ds: seq<Dep>, depNo: int)
    requires ExpandInv(keys, deps, ds, depNo) && depNo < |ds|
    requires !HasStar(ds[depNo]) || (ds[depNo].Id? && Found(keys, ds[depNo].id) == [])
    ensures ExpandInv(keys, deps, ds, depNo + 1)
    ensures StarCount(ds[depNo + 1..]) + (if HasStar(ds[depNo]) then 1 else 0) == StarCount(ds[depNo..])
  {
    var d := ds[depNo];
    assert ds[depNo..] == [d] + ds[depNo + 1..];
    assert ds[..depNo + 1] == ds[..depNo] + [d];
    StarCountConcat([d], ds[depNo + 1..]);
    assert ExpandOne(keys, d) == Ok([d]);
    PrependConcat(ds[..depNo], [d], Expanded(keys, ds[depNo + 1..]));
  }

  /** A glob that matched is replaced by the ids it found; the loop then
      stands on the first of them, and one glob fewer is left. */
  lemma ExpandSplice(keys: seq<string>, deps: seq<Dep>, ds: seq<Dep>, depNo: int)
    requires StarFree(keys)
    requires ExpandInv(keys, deps, ds, depNo) && depNo < |ds| && HasStar(ds[depNo])
    requires ReplaceGlobDeps(keys, ds, depNo).Ok? && ReplaceGlobDeps(keys, ds, depNo).value.1 < depNo
    ensures var next := ReplaceGlobDeps(keys, ds, depNo).value.0;
            && ExpandInv(keys, deps, next, depNo)
            && StarCount(next[depNo..]) < StarCount(ds[depNo..])
  {
    var d := ds[depNo];
    var found := Found(keys, d.id);
    assert StarFree(found);
    var rest := ds[depNo + 1..];
    var next := ds[..depNo] + Ids(found) + rest;
    assert ReplaceGlobDeps(keys, ds, depNo).value.0 == next;
    assert next[..depNo] == ds[..depNo];
    assert next[depNo..] == Ids(found) + rest;
    assert ds[depNo..] == [d] + rest;
    ExpandedIds(keys, found, rest);
    StarCountConcat(Ids(found), rest);
    StarCountConcat([d], rest);
    StarCountIds(found);
  }

  /** An array holding `"*"` makes the whole expansion a `TypeError`. */
  lemma ExpandFails(keys: seq<string>, deps: seq<Dep>, ds: seq<Dep>, depNo: int)
    requires ExpandInv(keys, deps, ds, depNo) && depNo < |ds| && HasStar(ds[depNo])
    requires ReplaceGlobDeps(keys, ds, depNo).Err?
    ensures Expanded(keys, deps) == Err(ReplaceGlobDeps(keys, ds, depNo).error)
  {
    assert ds[depNo..][0] == ds[depNo];
  }

  /** Expanding an already expanded list changes nothing. */
  lemma {:induction false} ExpandedIdempotent(keys: seq<string>, deps: seq<Dep>)
    requires StarFree(keys)
    requires Expanded(keys, deps).Ok?
    ensures Expanded(keys, Expanded(keys, deps).value) == Expanded(keys, deps)
    decreases |deps|
  {
    if deps != [] {
      var d := deps[0];
      var rest := Expanded(keys, deps[1..]).value;
      ExpandedIdempotent(keys, deps[1..]);
      match d {
        case Id(s) =>
          if '*' in s && Found(keys, s) != [] {
            var found := Found(keys, s);
            assert StarFree(found);
            ExpandedIds(keys, found, rest);
          } else {
            ExpandedIds(keys, [], [d] + rest);
            assert [d] + rest == [d] + rest;
            assert ([d] + rest)[0] == d && ([d] + rest)[1..] == rest;
          }
        case Group(ids) =>
          assert ([d] + rest)[0] == d && ([d] + rest)[1..] == rest;
      }
    }
  }

  /** A glob still present after expansion matched no task id. */
  lemma {:induction false} LeftoverGlobsMatchNothing(keys: seq<string>, deps: seq<Dep>, i: nat)
    requires StarFree(keys)
    requires Expanded(keys, deps).Ok? && i < |Expanded(keys, deps).value|
    requires Expanded(keys, deps).value[i].Id? && '*' in Expanded(keys, deps).value[i].id
    ensures Found(keys, Expanded(keys, deps).value[i].id) == []
    ensures Expanded(keys, deps).value[i] in deps
    decreases |deps|
  {
    var d := deps[0];
    var xs := ExpandOne(keys, d).value;
    var rest := Expanded(keys, deps[1..]).value;
    var out := Expanded(keys, deps).value;
    assert out == xs + rest;
    if i >= |xs| {
      assert out[i] == rest[i - |xs|];
      LeftoverGlobsMatchNothing(keys, deps[1..], i - |xs|);
    }
  }

  // ---------------------------------------------------------------------------
  // The task table.

  /** Every task's dependency list expanded against `keys`, in table order. */
  function ParseWith(keys: seq<string>, ts: seq<Field<Descriptor>>): Result<seq<Field<Descriptor>>>
    decreases |ts|
  {
    if ts == [] then Ok([])
    else
      var last := ts[|ts| - 1];
      match ParseWith(keys, ts[..|ts| - 1])
      case Err(e) => Err(e)
      case Ok(front) =>
        match Expanded(keys, last.value.deps)
        case Err(e) => Err(e)
        case Ok(ds) => Ok(front + [Field(last.key, last.value.(deps := ds))])
  }

  /** The last task of a successfully parsed table, expanded. */
  lemma ParseWithLast(keys: seq<string>, ts: seq<Field<Descriptor>>)
    requires ts != [] && ParseWith(keys, ts).Ok?
    ensures ParseWith(keys, ts[..|ts| - 1]).Ok? && Expanded(keys, ts[|ts| - 1].value.deps).Ok?
    ensures ParseWith(keys, ts).value ==
              ParseWith(keys, ts[..|ts| - 1]).value
              + [Field(ts[|ts| - 1].key, ts[|ts| - 1].value.(deps := Expanded(keys, ts[|ts| - 1].value.deps).value))]
  {
  }

  /** Parsing changes dependency lists only: the ids stay, in their order. */
  lemma {:induction false} ParseKeys(keys: seq<string>, ts: seq<Field<Descriptor>>)
    requires ParseWith(keys, ts).Ok?
    ensures Keys(ParseWith(keys, ts).value) == Keys(ts)
    decreases |ts|
  {
    if ts != [] {
      var n := |ts| - 1;
      ParseWithLast(keys, ts);
      var front := ParseWith(keys, ts[..n]).value;
      var f := Field(ts[n].key, ts[n].value.(deps := Expanded(keys, ts[n].value.deps).value));
      assert ParseWith(keys, ts).value == front + [f];
      ParseKeys(keys, ts[..n]);
      KeysSnoc(front, f);
      KeysSnoc(ts[..n], ts[n]);
      assert ts[..n] + [ts[n]] == ts;
    }
  }

  /** The loop invariant of `ParseDeps`: the first `i` tasks are expanded,
      the others untouched. */
  predicate ParseInv(keys: seq<string>, start: seq<Field<Descriptor>>, ts: seq<Field<Descriptor>>, i: int) {
    && 0 <= i <= |ts| == |start|
    && ParseWith(keys, start[..i]) == Ok(ts[..i])
    && ts[i..] == start[i..]
  }

  /** One more task's expansion, as the loop of `_parseDeps` performs it. */
  lemma ParseAdvance(keys: seq<string>, start: seq<Field<Descriptor>>, ts: seq<Field<Descriptor>>, i: int)
    requires ParseInv(keys, start, ts, i) && i < |ts|
    requires Expanded(keys, ts[i].value.deps).Ok?
    ensures ParseInv(keys, start, ts[i := Field(ts[i].key, ts[i].value.(deps := Expanded(keys, ts[i].value.deps).value))], i + 1)
  {
    assert ts[i] == ts[i..][0] == start[i];
    assert start[..i + 1][..i] == start[..i];
    assert start[..i + 1][i] == start[i];
    var updated := ts[i := Field(ts[i].key, ts[i].value.(deps := Expanded(keys, ts[i].value.deps).value))];
    assert updated[..i + 1] == ts[..i] + [updated[i]];
    assert updated[i + 1..] == ts[i + 1..];
  }

  lemma ParseEnd(keys: seq<string>, start: seq<Field<Descriptor>>, ts: seq<Field<Descriptor>>)
    requires ParseInv(keys, start, ts, |ts|)
    ensures ParseWith(keys, start) == Ok(ts)
    ensures keys == Keys(start) ==> ParseAll(start) == Ok(ts)
  {
    assert start[..|start|] == start;
    assert ts[..|ts|] == ts;
  }

  lemma ParseFails(keys: seq<string>, start: seq<Field<Descriptor>>, ts: seq<Field<Descriptor>>, i: int)
    requires ParseInv(keys, start, ts, i) && i < |ts|
    requires Expanded(keys, ts[i].value.deps).Err?
    ensures ParseWith(keys, start) == Err(Expanded(keys, ts[i].value.deps).error)
    ensures keys == Keys(start) ==> ParseAll(start) == Err(Expanded(keys, ts[i].value.deps).error)
  {
    assert ts[i] == ts[i..][0] == start[i];
    assert start[..i + 1][..i] == start[..i];
    assert start[..i + 1][i] == start[i];
    ParseErrorSpreads(keys, start, i + 1);
  }

  /** `_parseDeps(tasks)`: globs are expanded against the table's own ids. */
  function ParseAll(ts: seq<Field<Descriptor>>): Result<seq<Field<Descriptor>>>
  {
    ParseWith(Keys(ts), ts)
  }

  /** The tasks object `_createTasks` fills: task ids against descriptors, in
      insertion order. */
  class TaskTable {
    var tasks: seq<Field<Descriptor>>

    constructor()
      ensures tasks == []
    {
      tasks := [];
    }

    /** `tasks[id] = item`. */
    method Assign(id: string, item: Descriptor)
      modifies this
      ensures tasks == Put(old(tasks), id, item)
    {
      tasks := Put(tasks, id, item);
    }

    /** `_parseDeps(tasks)`: each task's dependency list expanded in place, in
        key order; a `TypeError` leaves the rest unparsed and is raised. */
    method ParseDeps() returns (error: Option<Error>)
      requires StarFree(Keys(tasks))
      modifies this
      ensures ParseAll(old(tasks)).Ok? <==> error.None?
      ensures error.None? ==> tasks == ParseAll(old(tasks)).value
      ensures error.Some? ==> ParseAll(old(tasks)) == Err(error.value)
    {
      ghost var start := tasks;
      var keys := Keys(tasks);
      var ts := tasks;
      for i := 0 to |ts|
        invariant ParseInv(keys, start, ts, i)
      {
        var field := ts[i];
        var deps := ExpandDeps(keys, field.value.deps);
        if deps.Err? {
          ParseFails(keys, start, ts, i);
          tasks := ts;
          return Some(deps.error);
        }
        ParseAdvance(keys, start, ts, i);
        ts := ts[i := Field(field.key, field.value.(deps := deps.value))];
      }
      ParseEnd(keys, start, ts);
      tasks := ts;
      error := None;
    }
  }

  /** An error in one task's expansion is the error of the whole table. */
  lemma {:induction false} ParseErrorSpreads(keys: seq<string>, ts: seq<Field<Descriptor>>, i: nat)
    requires 0 < i <= |ts| && ParseWith(keys, ts[..i]).Err?
    ensures ParseWith(keys, ts) == ParseWith(keys, ts[..i])
    decreases |ts| - i
  {
    if i < |ts| {
      assert ts[..i + 1][..i] == ts[..i];
      ParseErrorSpreads(keys, ts, i + 1);
    } else {
      assert ts[..i] == ts;
    }
  }

  /** Parsing a table a second time against the same ids changes nothing. */
  lemma {:induction false} ParseIdempotent(keys: seq<string>, ts: seq<Field<Descriptor>>)
    requires StarFree(keys) && ParseWith(keys, ts).Ok?
    ensures ParseWith(keys, ParseWith(keys, ts).value) == ParseWith(keys, ts)
    decreases |ts|
  {
    if ts != [] {
      var n := |ts| - 1;
      var out := ParseWith(keys, ts).value;
      var front := ParseWith(keys, ts[..n]).value;
      ParseKeys(keys, ts);
      ParseKeys(keys, ts[..n]);
      ParseIdempotent(keys, ts[..n]);
      ExpandedIdempotent(keys, ts[n].value.deps);
      assert out[..n] == front;
    }
  }

  // ---------------------------------------------------------------------------
  // `_createTasks`.

  /** The ids `_createTasks` gives the leaves under `tree`: the path of
      property names from the top, each with its extension removed, joined by
      `:`. */
  function LeafIds(tree: seq<Field<Node>>, parent: string, ghost up: Node): set<string>
    requires forall i :: 0 <= i < |tree| ==> tree[i] < up
    decreases up, |tree|
  {
    if tree == [] then {}
    else
      var item := tree[|tree| - 1];
      LeafIds(tree[..|tree| - 1], parent, up) +
      match item.value
      case Dir(entries) => LeafIds(entries, ParentId(parent, item.key) + ":", item.value)
      case Leaf(_) => {ParentId(parent, item.key)}
  }

  /** No property name in the structure contains a `*`. */
  predicate NamesStarFree(tree: seq<Field<Node>>, ghost up: Node)
    requires forall i :: 0 <= i < |tree| ==> tree[i] < up
    decreases up, |tree|
  {
    tree != [] ==>
      var item := tree[|tree| - 1];
      && NamesStarFree(tree[..|tree| - 1], up)
      && '*' !in item.key
      && match item.value
         case Dir(entries) => NamesStarFree(entries, item.value)
         case Leaf(_) => true
  }

  /** The table after the items of one level are visited in order: a
      sub-structure is flattened by a nested `_createTasks` (which parses the
      table before it returns), a task is stored under its qualified id. */
  function Visit(ts: seq<Field<Descriptor>>, tree: seq<Field<Node>>, parent: string, ghost up: Node): Result<seq<Field<Descriptor>>>
    requires forall i :: 0 <= i < |tree| ==> tree[i] < up
    decreases up, |tree|, 0
  {
    if tree == [] then Ok(ts)
    else
      var item := tree[|tree| - 1];
      match Visit(ts, tree[..|tree| - 1], parent, up)
      case Err(e) => Err(e)
      case Ok(front) =>
        match item.value
        case Dir(entries) => Created(front, entries, ParentId(parent, item.key) + ":", item.value)
        case Leaf(d) => Ok(Put(front, ParentId(parent, item.key), d))
  }

  /** `_createTasks(tree, parent, tasks)`: visit the level, then parse. */
  function Created(ts: seq<Field<Descriptor>>, tree: seq<Field<Node>>, parent: string, ghost up: Node): Result<seq<Field<Descriptor>>>
    requires forall i :: 0 <= i < |tree| ==> tree[i] < up
    decreases up, |tree|, 1
  {
    match Visit(ts, tree, parent, up)
    case Err(e) => Err(e)
    case Ok(visited) => ParseAll(visited)
  }

  /** The ids in the table are the ids it had and the qualified ids of the
      leaves, each once; nothing else. */
  lemma {:induction false} VisitKeys(ts: seq<Field<Descriptor>>, tree: seq<Field<Node>>, parent: string, up: Node)
    requires forall i :: 0 <= i < |tree| ==> tree[i] < up
    requires WellFormed(ts)
    requires Visit(ts, tree, parent, up).Ok?
    ensures WellFormed(Visit(ts, tree, parent, up).value)
    ensures forall k :: k in Keys(Visit(ts, tree, parent, up).value) <==> k in Keys(ts) || k in LeafIds(tree, parent, up)
    decreases up, |tree|, 0
  {
    if tree != [] {
      var item := tree[|tree| - 1];
      var front := Visit(ts, tree[..|tree| - 1], parent, up).value;
      VisitKeys(ts, tree[..|tree| - 1], parent, up);
      match item.value {
        case Dir(entries) =>
          CreatedKeys(front, entries, ParentId(parent, item.key) + ":", item.value);
        case Leaf(d) =>
          PutWellFormed(front, ParentId(parent, item.key), d);
      }
    }
  }

  lemma {:induction false} CreatedKeys(ts: seq<Field<Descriptor>>, tree: seq<Field<Node>>, parent: string, up: Node)
    requires forall i :: 0 <= i < |tree| ==> tree[i] < up
    requires WellFormed(ts)
    requires Created(ts, tree, parent, up).Ok?
    ensures WellFormed(Created(ts, tree, parent, up).value)
    ensures forall k :: k in Keys(Created(ts, tree, parent, up).value) <==> k in Keys(ts) || k in LeafIds(tree, parent, up)
    decreases up, |tree|, 1
  {
    VisitKeys(ts, tree, parent, up);
    var visited := Visit(ts, tree, parent, up).value;
    ParseKeys(Keys(visited), visited);
  }

  /** A qualified id is star-free when the parent prefix and the name are. */
  lemma ParentIdStarFree(parent: string, id: string)
    requires '*' !in parent && '*' !in id
    ensures '*' !in ParentId(parent, id) + ":"
  {
    var r := ParentId(parent, id);
    forall k | 0 <= k < |r| ensures r[k] != '*' {
      if k >= |parent| {
        assert r[k] == r[|parent|..][k - |parent|] == id[k - |parent|];
      } else {
        assert r[k] == parent[k];
      }
    }
    assert (r + ":")[..|r|] == r;
  }

  /** The qualified leaf ids are star-free when the names are. */
  lemma {:induction false} LeafIdsStarFree(tree: seq<Field<Node>>, parent: string, up: Node, k: string)
    requires forall i :: 0 <= i < |tree| ==> tree[i] < up
    requires '*' !in parent && NamesStarFree(tree, up)
    requires k in LeafIds(tree, parent, up)
    ensures '*' !in k
    decreases up, |tree|
  {
    var item := tree[|tree| - 1];
    ParentIdStarFree(parent, item.key);
    var id := ParentId(parent, item.key);
    assert id == (id + ":")[..|id|];
    if k in LeafIds(tree[..|tree| - 1], parent, up) {
      LeafIdsStarFree(tree[..|tree| - 1], parent, up, k);
    } else {
      match item.value {
        case Dir(entries) => LeafIdsStarFree(entries, id + ":", item.value, k);
        case Leaf(_) =>
      }
    }
  }

  /** `_createTasks(tree, parent, tasks)` on a shared table. Ids with a `*`
      would let the glob loop run forever, so the names are star-free. */
  method CreateTasks(t: TaskTable, tree: seq<Field<Node>>, parent: string, ghost up: Node) returns (error: Option<Error>)
    requires forall i :: 0 <= i < |tree| ==> tree[i] < up
    requires '*' !in parent && NamesStarFree(tree, up)
    requires WellFormed(t.tasks) && StarFree(Keys(t.tasks))
    modifies t
    ensures Created(old(t.tasks), tree, parent, up).Ok? <==> error.None?
    ensures error.None? ==> Created(old(t.tasks), tree, parent, up) == Ok(t.tasks)
    ensures error.Some? ==> Created(old(t.tasks), tree, parent, up) == Err(error.value)
    decreases up
  {
    ghost var start := t.tasks;
    for i := 0 to |tree|
      invariant Visit(start, tree[..i], parent, up) == Ok(t.tasks)
      invariant WellFormed(t.tasks) && StarFree(Keys(t.tasks))
    {
      var item := tree[i];
      ghost var before := t.tasks;
      VisitStep(start, tree, parent, up, i, before);
      var id := ParentId(parent, item.key);
      ItemStarFree(tree, parent, up, i);
      match item.value {
        case Dir(entries) =>
          var e := CreateTasks(t, entries, id + ":", item.value);
          if e.Some? {
            VisitErrorSpreads(start, tree, parent, up, i + 1);
            return e;
          }
          CreatedStarFree(before, entries, id, item.value);
        case Leaf(d) =>
          t.Assign(id, d);
          PutStarFree(before, id, d);
      }
    }
    assert tree[..|tree|] == tree;
    ghost var visited := t.tasks;
    error := t.ParseDeps();
    if error.None? {
      ParseKeysWellFormed(visited);
    }
  }

  /** Visiting one more item of a level: a sub-structure is created into the
      table, a leaf assigned to its qualified id. */
  lemma VisitStep(ts: seq<Field<Descriptor>>, tree: seq<Field<Node>>, parent: string, up: Node, i: nat, front: seq<Field<Descriptor>>)
    requires forall j :: 0 <= j < |tree| ==> tree[j] < up
    requires i < |tree| && Visit(ts, tree[..i], parent, up) == Ok(front)
    ensures Visit(ts, tree[..i + 1], parent, up) ==
            match tree[i].value
            case Dir(entries) => Created(front, entries, ParentId(parent, tree[i].key) + ":", tree[i].value)
            case Leaf(d) => Ok(Put(front, ParentId(parent, tree[i].key), d))
  {
    PrefixBelow(tree, up, i);
    TakeOneMore(tree, i);
    VisitSnoc(ts, tree[..i], tree[i], parent, up, front);
  }

  lemma PrefixBelow(tree: seq<Field<Node>>, up: Node, i: nat)
    requires i <= |tree| && forall j :: 0 <= j < |tree| ==> tree[j] < up
    ensures forall j :: 0 <= j < i ==> tree[..i][j] < up
  {
  }

  lemma TakeOneMore<T>(xs: seq<T>, i: nat)
    requires i < |xs|
    ensures xs[..i + 1] == xs[..i] + [xs[i]]
  {
  }

  /** `Visit` over a level extended by one item. */
  lemma VisitSnoc(ts: seq<Field<Descriptor>>, pre: seq<Field<Node>>, item: Field<Node>, parent: string, up: Node, front: seq<Field<Descriptor>>)
    requires (forall j :: 0 <= j < |pre| ==> pre[j] < up) && item < up
    requires Visit(ts, pre, parent, up) == Ok(front)
    ensures Visit(ts, pre + [item], parent, up) ==
            if item.value.Dir? then Created(front, item.value.entries, ParentId(parent, item.key) + ":", item.value)
            else Ok(Put(front, ParentId(parent, item.key), item.value.task))
  {
    var all := pre + [item];
    assert all[..|pre|] == pre;
    assert all[|pre|] == item;
  }

  /** An item of a star-free level has a star-free qualified id, and so has
      everything below it. */
  lemma ItemStarFree(tree: seq<Field<Node>>, parent: string, up: Node, i: nat)
    requires forall j :: 0 <= j < |tree| ==> tree[j] < up
    requires i < |tree| && '*' !in parent && NamesStarFree(tree, up)
    ensures '*' !in ParentId(parent, tree[i].key)
    ensures '*' !in ParentId(parent, tree[i].key) + ":"
    ensures tree[i].value.Dir? ==> NamesStarFree(tree[i].value.entries, tree[i].value)
  {
    NamesStarFreePrefix(tree, up, i + 1);
    assert tree[..i + 1][|tree[..i + 1]| - 1] == tree[i];
    ParentIdStarFree(parent, tree[i].key);
    var id := ParentId(parent, tree[i].key);
    assert id == (id + ":")[..|id|];
  }

  /** Creating a star-free sub-structure into a well-formed star-free table
      keeps it so. */
  lemma CreatedStarFree(before: seq<Field<Descriptor>>, entries: seq<Field<Node>>, id: string, node: Node)
    requires forall j :: 0 <= j < |entries| ==> entries[j] < node
    requires WellFormed(before) && StarFree(Keys(before))
    requires '*' !in id + ":" && NamesStarFree(entries, node)
    requires Created(before, entries, id + ":", node).Ok?
    ensures WellFormed(Created(before, entries, id + ":", node).value)
    ensures StarFree(Keys(Created(before, entries, id + ":", node).value))
  {
    CreatedKeys(before, entries, id + ":", node);
    var after := Created(before, entries, id + ":", node).value;
    forall k | k in Keys(after) ensures '*' !in k {
      if k !in Keys(before) {
        LeafIdsStarFree(entries, id + ":", node, k);
      }
    }
  }

  /** Assigning a star-free id keeps a well-formed star-free table so. */
  lemma PutStarFree(before: seq<Field<Descriptor>>, id: string, d: Descriptor)
    requires WellFormed(before) && StarFree(Keys(before)) && '*' !in id
    ensures WellFormed(Put(before, id, d)) && StarFree(Keys(Put(before, id, d)))
  {
    PutWellFormed(before, id, d);
  }

  lemma ParseKeysWellFormed(ts: seq<Field<Descriptor>>)
    requires WellFormed(ts) && ParseAll(ts).Ok?
    ensures WellFormed(ParseAll(ts).value)
  {
    ParseKeys(Keys(ts), ts);
  }

  lemma {:induction false} NamesStarFreePrefix(tree: seq<Field<Node>>, up: Node, n: nat)
    requires forall i :: 0 <= i < |tree| ==> tree[i] < up
    requires n <= |tree| && NamesStarFree(tree, up)
    ensures NamesStarFree(tree[..n], up)
    decreases |tree| - n
  {
    if n < |tree| {
      assert tree[..n + 1][..n] == tree[..n];
      NamesStarFreePrefix(tree, up, n + 1);
    } else {
      assert tree[..n] == tree;
    }
  }

  /** An error while visiting one item is the error of the whole level. */
  lemma {:induction false} VisitErrorSpreads(ts: seq<Field<Descriptor>>, tree: seq<Field<Node>>, parent: string, up: Node, i: nat)
    requires forall j :: 0 <= j < |tree| ==> tree[j] < up
    requires 0 < i <= |tree| && Visit(ts, tree[..i], parent, up).Err?
    ensures Created(ts, tree, parent, up) == Visit(ts, tree[..i], parent, up)
    decreases |tree| - i
  {
    if i < |tree| {
      assert tree[..i + 1][..i] == tree[..i];
      VisitErrorSpreads(ts, tree, parent, up, i + 1);
    } else {
      assert tree[..i] == tree;
    }
  }

  // ---------------------------------------------------------------------------
  // What `_createTasks` stores under each id.

  /** Every task of a parsed table is the task at the same place, with its
      dependency list expanded and nothing else changed. */
  lemma {:induction false} ParseWithFields(keys: seq<string>, ts: seq<Field<Descriptor>>)
    requires ParseWith(keys, ts).Ok?
    ensures |ParseWith(keys, ts).value| == |ts|
    ensures forall i :: 0 <= i < |ts| ==>
              && Expanded(keys, ts[i].value.deps).Ok?
              && ParseWith(keys, ts).value[i] == Field(ts[i].key, ts[i].value.(deps := Expanded(keys, ts[i].value.deps).value))
    decreases |ts|
  {
    if ts != [] {
      var n := |ts| - 1;
      ParseWithLast(keys, ts);
      ParseWithFields(keys, ts[..n]);
      forall i | 0 <= i < n
        ensures ParseWith(keys, ts).value[i] == ParseWith(keys, ts[..n]).value[i]
      {
      }
    }
  }

  /** Two tables with the same ids in the same order, whose tasks differ at
      most in their dependency lists. */
  predicate SameButDeps(a: seq<Field<Descriptor>>, b: seq<Field<Descriptor>>) {
    && |a| == |b|
    && forall i :: 0 <= i < |a| ==> a[i].key == b[i].key && a[i].value.(deps := []) == b[i].value.(deps := [])
  }

  lemma SameButDepsTrans(a: seq<Field<Descriptor>>, b: seq<Field<Descriptor>>, c: seq<Field<Descriptor>>)
    requires SameButDeps(a, b) && SameButDeps(b, c)
    ensures SameButDeps(a, c)
  {
  }

  /** Parsing only rewrites dependency lists. */
  lemma ParseSameButDeps(ts: seq<Field<Descriptor>>)
    requires ParseAll(ts).Ok?
    ensures SameButDeps(ParseAll(ts).value, ts)
  {
    ParseWithFields(Keys(ts), ts);
  }

  /** Assigning the same task to two such tables keeps them alike. */
  lemma {:induction false} SameButDepsPut(a: seq<Field<Descriptor>>, b: seq<Field<Descriptor>>, key: string, d: Descriptor)
    requires SameButDeps(a, b)
    ensures SameButDeps(Put(a, key, d), Put(b, key, d))
    decreases |a|
  {
    if a != [] && a[0].key != key {
      assert SameButDeps(a[1..], b[1..]) by {
        forall i | 0 <= i < |a[1..]|
          ensures a[1..][i].key == b[1..][i].key && a[1..][i].value.(deps := []) == b[1..][i].value.(deps := [])
        {
          assert a[1..][i] == a[i + 1] && b[1..][i] == b[i + 1];
        }
      }
      SameButDepsPut(a[1..], b[1..], key, d);
      var pa, pb := Put(a[1..], key, d), Put(b[1..], key, d);
      assert Put(a, key, d) == [a[0]] + pa && Put(b, key, d) == [b[0]] + pb;
      forall i | 0 <= i < |pa| + 1
        ensures ([a[0]] + pa)[i].key == ([b[0]] + pb)[i].key
        ensures ([a[0]] + pa)[i].value.(deps := []) == ([b[0]] + pb)[i].value.(deps := [])
      {
        if i > 0 {
          assert ([a[0]] + pa)[i] == pa[i - 1] && ([b[0]] + pb)[i] == pb[i - 1];
        }
      }
    }
  }

  /** The walk of `_createTasks` with every nested parse left out: tasks are
      assigned under their ids in visiting order and nothing else happens. */
  function Flat(ts: seq<Field<Descriptor>>, tree: seq<Field<Node>>, parent: string, ghost up: Node): seq<Field<Descriptor>>
    requires forall i :: 0 <= i < |tree| ==> tree[i] < up
    decreases up, |tree|
  {
    if tree == [] then ts
    else
      var item := tree[|tree| - 1];
      var front := Flat(ts, tree[..|tree| - 1], parent, up);
      match item.value
      case Dir(entries) => Flat(front, entries, ParentId(parent, item.key) + ":", item.value)
      case Leaf(d) => Put(front, ParentId(parent, item.key), d)
  }

  /** The assignments of the walk keep two alike tables alike. */
  lemma {:induction false} FlatRespects(a: seq<Field<Descriptor>>, b: seq<Field<Descriptor>>, tree: seq<Field<Node>>, parent: string, up: Node)
    requires forall i :: 0 <= i < |tree| ==> tree[i] < up
    requires SameButDeps(a, b)
    ensures SameButDeps(Flat(a, tree, parent, up), Flat(b, tree, parent, up))
    decreases up, |tree|
  {
    if tree != [] {
      var item := tree[|tree| - 1];
      var pre := tree[..|tree| - 1];
      FlatRespects(a, b, pre, parent, up);
      var fa, fb := Flat(a, pre, parent, up), Flat(b, pre, parent, up);
      match item.value {
        case Dir(entries) =>
          FlatRespects(fa, fb, entries, ParentId(parent, item.key) + ":", item.value);
        case Leaf(d) =>
          SameButDepsPut(fa, fb, ParentId(parent, item.key), d);
      }
    }
  }

  /** The nested parses of `_createTasks` change only dependency lists: the
      table it builds is the plain walk up to dependency lists. */
  lemma {:induction false} VisitFlat(ts: seq<Field<Descriptor>>, tree: seq<Field<Node>>, parent: string, up: Node)
    requires forall i :: 0 <= i < |tree| ==> tree[i] < up
    requires Visit(ts, tree, parent, up).Ok?
    ensures SameButDeps(Visit(ts, tree, parent, up).value, Flat(ts, tree, parent, up))
    decreases up, |tree|, 0
  {
    if tree != [] {
      var item := tree[|tree| - 1];
      var pre := tree[..|tree| - 1];
      VisitFlat(ts, pre, parent, up);
      var front := Visit(ts, pre, parent, up).value;
      var flat := Flat(ts, pre, parent, up);
      var id := ParentId(parent, item.key);
      match item.value {
        case Dir(entries) =>
          CreatedFlat(front, entries, id + ":", item.value);
          FlatRespects(front, flat, entries, id + ":", item.value);
          SameButDepsTrans(Created(front, entries, id + ":", item.value).value,
                           Flat(front, entries, id + ":", item.value), Flat(flat, entries, id + ":", item.value));
        case Leaf(d) =>
          SameButDepsPut(front, flat, id, d);
      }
    }
  }

  lemma {:induction false} CreatedFlat(ts: seq<Field<Descriptor>>, tree: seq<Field<Node>>, parent: string, up: Node)
    requires forall i :: 0 <= i < |tree| ==> tree[i] < up
    requires Created(ts, tree, parent, up).Ok?
    ensures SameButDeps(Created(ts, tree, parent, up).value, Flat(ts, tree, parent, up))
    decreases up, |tree|, 1
  {
    VisitFlat(ts, tree, parent, up);
    var visited := Visit(ts, tree, parent, up).value;
    ParseSameButDeps(visited);
    SameButDepsTrans(Created(ts, tree, parent, up).value, visited, Flat(ts, tree, parent, up));
  }

  /** The task of the last leaf under `tree` whose full id is `k`, if any. */
  function LastLeaf(tree: seq<Field<Node>>, parent: string, ghost up: Node, k: string): (r: Option<Descriptor>)
    requires forall i :: 0 <= i < |tree| ==> tree[i] < up
    decreases up, |tree|
  {
    if tree == [] then None
    else
      var item := tree[|tree| - 1];
      var here := match item.value
        case Dir(entries) => LastLeaf(entries, ParentId(parent, item.key) + ":", item.value, k)
        case Leaf(d) => if ParentId(parent, item.key) == k then Some(d) else None;
      if here.Some? then here else LastLeaf(tree[..|tree| - 1], parent, up, k)
  }

  /** Some leaf has the id `k` exactly when `k` is one of the leaf ids. */
  lemma {:induction false} LastLeafIds(tree: seq<Field<Node>>, parent: string, up: Node, k: string)
    requires forall i :: 0 <= i < |tree| ==> tree[i] < up
    ensures LastLeaf(tree, parent, up, k).Some? <==> k in LeafIds(tree, parent, up)
    decreases up, |tree|
  {
    if tree != [] {
      var item := tree[|tree| - 1];
      LastLeafIds(tree[..|tree| - 1], parent, up, k);
      match item.value {
        case Dir(entries) =>
          LastLeafIds(entries, ParentId(parent, item.key) + ":", item.value, k);
        case Leaf(_) =>
      }
    }
  }

  /** The plain walk stores under `k` the task of the last leaf with that id,
      and leaves `k` as it was when no leaf has it. */
  lemma {:induction false} FlatLookup(ts: seq<Field<Descriptor>>, tree: seq<Field<Node>>, parent: string, up: Node, k: string)
    requires forall i :: 0 <= i < |tree| ==> tree[i] < up
    ensures Lookup(Flat(ts, tree, parent, up), k) ==
              if LastLeaf(tree, parent, up, k).Some? then LastLeaf(tree, parent, up, k) else Lookup(ts, k)
    decreases up, |tree|
  {
    if tree != [] {
      var item := tree[|tree| - 1];
      var pre := tree[..|tree| - 1];
      FlatLookup(ts, pre, parent, up, k);
      var front := Flat(ts, pre, parent, up);
      match item.value {
        case Dir(entries) =>
          FlatLookup(front, entries, ParentId(parent, item.key) + ":", item.value, k);
        case Leaf(d) =>
          PutLookup(front, ParentId(parent, item.key), d, k);
      }
    }
  }

  /** Alike tables hold a task under the same ids, equal up to dependencies. */
  lemma {:induction false} SameButDepsLookup(a: seq<Field<Descriptor>>, b: seq<Field<Descriptor>>, k: string)
    requires SameButDeps(a, b)
    ensures Lookup(a, k).Some? <==> Lookup(b, k).Some?
    ensures Lookup(a, k).Some? ==> Lookup(a, k).value.(deps := []) == Lookup(b, k).value.(deps := [])
    decreases |a|
  {
    if a != [] && a[0].key != k {
      assert SameButDeps(a[1..], b[1..]) by {
        forall i | 0 <= i < |a[1..]|
          ensures a[1..][i].key == b[1..][i].key && a[1..][i].value.(deps := []) == b[1..][i].value.(deps := [])
        {
          assert a[1..][i] == a[i + 1] && b[1..][i] == b[i + 1];
        }
      }
      SameButDepsLookup(a[1..], b[1..], k);
    }
  }

  /** What `_createTasks` stores under an id: the task of the last leaf with
      that id, with only its dependency list rewritten by the parses; an id
      that no leaf has keeps the task it had before, likewise. */
  lemma CreatedLookup(ts: seq<Field<Descriptor>>, tree: seq<Field<Node>>, parent: string, up: Node, k: string)
    requires forall i :: 0 <= i < |tree| ==> tree[i] < up
    requires Created(ts, tree, parent, up).Ok?
    ensures var r := Lookup(Created(ts, tree, parent, up).value, k);
            && (r.Some? <==> LastLeaf(tree, parent, up, k).Some? || Lookup(ts, k).Some?)
            && (LastLeaf(tree, parent, up, k).Some? ==> r.value.(deps := []) == LastLeaf(tree, parent, up, k).value.(deps := []))
            && (LastLeaf(tree, parent, up, k).None? && Lookup(ts, k).Some? ==> r.value.(deps := []) == Lookup(ts, k).value.(deps := []))
  {
    CreatedFlat(ts, tree, parent, up);
    SameButDepsLookup(Created(ts, tree, parent, up).value, Flat(ts, tree, parent, up), k);
    FlatLookup(ts, tree, parent, up, k);
  }
}
