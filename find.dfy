/**
  `Repo.Find` (repo/repo.go:96-125): enumeration of the descendants of a
  tree path with an explicit LIFO stack of relative paths, bounded by
  comparing the stack's length (not the nesting depth) with `maxDepth`.
 */
module RepoFind {
  import opened Wrappers
  import opened GoStrings
  import opened Repo

  // ---------------------------------------------------------------------------
  // Well-formed trees

  /** Entry names as git's tree format has them: non-empty, without "/", pairwise distinct. */
  predicate ValidNames(es: seq<Entry>) {
    && (forall i :: 0 <= i < |es| ==> es[i].name != "" && NoSlash(es[i].name))
    && (forall i, j :: 0 <= i < j < |es| ==> es[i].name != es[j].name)
  }

  predicate ValidTree(o: Object)
    decreases o
  {
    match o
    case Blob(_, _, _) => true
    case Tree(_, es) => ValidNames(es) && forall i :: 0 <= i < |es| ==> ValidTree(es[i].obj)
  }

  /** Every commit's root tree is well formed. */
  predicate ValidRepo(repo: Repo) {
    forall h :: h in repo.commits && repo.commits[h].tree.Some? ==> ValidTree(repo.commits[h].tree.value)
  }

  // ---------------------------------------------------------------------------
  // The stack's pushes and the loop's output for one expanded path

  /** The relative paths one expansion of `p` pushes: those of its directory-mode entries, in order. */
  function Pushes(p: string, tes: seq<TreeEntry>): seq<string> {
    if tes == [] then []
    else
      var te := tes[|tes| - 1];
      Pushes(p, tes[..|tes| - 1]) + (if IsDirMode(te.mode) then [PathJoin([p, te.name])] else [])
  }

  /** The entries one expansion of `p` appends to the results: every entry, renamed relative to the Find root. */
  function Emitted(p: string, tes: seq<TreeEntry>): (r: seq<TreeEntry>)
    ensures |r| == |tes|
  {
    if tes == [] then []
    else
      var te := tes[|tes| - 1];
      Emitted(p, tes[..|tes| - 1]) + [TreeEntry(te.hash, PathJoin([p, te.name]), te.mode)]
  }

  /** Prefixing the successful result of the rest of the run. */
  function Prepend(xs: seq<TreeEntry>, r: Result<seq<TreeEntry>, Error>): Result<seq<TreeEntry>, Error> {
    match r
    case Ok(ys) => Ok(xs + ys)
    case Err(e) => Err(e)
  }

  // ---------------------------------------------------------------------------
  // Termination measure: the sizes of the trees the stacked paths name

  function PathWeight(repo: Repo, path: string, rev: string, s: string): nat {
    match DirAt(repo, PathJoin([path, s]), rev)
    case None => 0
    case Some(o) => Size(o)
  }

  function Weight(repo: Repo, path: string, rev: string, stack: seq<string>): nat {
    if stack == [] then 0
    else Weight(repo, path, rev, stack[..|stack| - 1]) + PathWeight(repo, path, rev, stack[|stack| - 1])
  }

  lemma {:induction false} WeightConcat(repo: Repo, path: string, rev: string, xs: seq<string>, ys: seq<string>)
    ensures Weight(repo, path, rev, xs + ys) == Weight(repo, path, rev, xs) + Weight(repo, path, rev, ys)
    decreases |ys|
  {
    if ys == [] {
      assert xs + ys == xs;
    } else {
      assert (xs + ys)[..|xs + ys| - 1] == xs + ys[..|ys| - 1];
      WeightConcat(repo, path, rev, xs, ys[..|ys| - 1]);
    }
  }

  /** In a well-formed tree, whatever a path names is well formed. */
  lemma {:induction false} FindEntryValid(es: seq<Entry>, segs: seq<string>)
    requires |segs| >= 1
    requires forall i :: 0 <= i < |es| ==> ValidTree(es[i].obj)
    ensures FindEntry(es, segs).Some? ==> ValidTree(FindEntry(es, segs).value.obj)
    decreases |segs|
  {
    var e := EntryNamed(es, segs[0]);
    if |segs| > 1 && e.Some? && e.value.obj.Tree? {
      var k :| 0 <= k < |es| && es[k] == e.value;
      FindEntryValid(e.value.obj.entries, segs[1..]);
    }
  }

  /** One more path piece after a path that names a tree looks up that tree's entry. */
  lemma {:induction false} FindEntryAppend(es: seq<Entry>, segs: seq<string>, name: string)
    requires |segs| >= 1
    requires FindEntry(es, segs).Some? && FindEntry(es, segs).value.obj.Tree?
    ensures FindEntry(es, segs + [name]) == EntryNamed(FindEntry(es, segs).value.obj.entries, name)
    decreases |segs|
  {
    assert (segs + [name])[0] == segs[0];
    if |segs| > 1 {
      assert (segs + [name])[1..] == segs[1..] + [name];
      FindEntryAppend(EntryNamed(es, segs[0]).value.obj.entries, segs[1..], name);
    } else {
      assert (segs + [name])[1..] == [name];
    }
  }

  /** Among distinct names, looking an entry's name up finds that entry. */
  lemma {:induction false} EntryNamedUnique(es: seq<Entry>, i: nat)
    requires i < |es|
    requires forall a, b :: 0 <= a < b < |es| ==> es[a].name != es[b].name
    ensures EntryNamed(es, es[i].name) == Some(es[i])
  {
    if i < |es| - 1 {
      EntryNamedUnique(es[..|es| - 1], i);
    }
  }

  /** The tree at `q` is well formed in a well-formed repository. */
  lemma DirAtValid(repo: Repo, q: string, rev: string)
    requires ValidRepo(repo)
    requires DirAt(repo, q, rev).Some?
    ensures ValidTree(DirAt(repo, q, rev).value)
  {
    var root := RootAt(repo, rev).value;
    if q != "" {
      FindEntryValid(root.entries, Split(q));
    }
  }

  /** The tree at `q` joined with the name of one of its entries is that entry's object, when it is a tree. */
  lemma ChildDirAt(repo: Repo, q: string, rev: string, i: nat)
    requires ValidRepo(repo)
    requires DirAt(repo, q, rev).Some?
    requires i < |DirAt(repo, q, rev).value.entries|
    ensures var e := DirAt(repo, q, rev).value.entries[i];
      DirAt(repo, PathJoin([q, e.name]), rev) == if e.obj.Tree? then Some(e.obj) else None
  {
    var root := RootAt(repo, rev).value;
    var d := DirAt(repo, q, rev).value;
    DirAtValid(repo, q, rev);
    var e := d.entries[i];
    EntryNamedUnique(d.entries, i);
    PathJoinPair(q, e.name);
    SplitNoSlash(e.name);
    if q == "" {
      assert FindEntry(root.entries, Split(e.name)) == Some(e);
    } else {
      SplitConcat(q, e.name);
      FindEntryAppend(root.entries, Split(q), e.name);
      assert FindEntry(root.entries, Split(PathJoin([q, e.name]))) == Some(e);
    }
  }

  lemma {:induction false} PushesWeightBound(repo: Repo, path: string, rev: string, p: string, tes: seq<TreeEntry>, es: seq<Entry>)
    requires |tes| == |es|
    requires forall i :: 0 <= i < |tes| && IsDirMode(tes[i].mode) ==>
      PathWeight(repo, path, rev, PathJoin([p, tes[i].name])) <= Size(es[i].obj)
    ensures Weight(repo, path, rev, Pushes(p, tes)) <= EntriesSize(es)
  {
    if tes != [] {
      var n := |tes| - 1;
      PushesWeightBound(repo, path, rev, p, tes[..n], es[..n]);
      WeightConcat(repo, path, rev, Pushes(p, tes[..n]),
        if IsDirMode(tes[n].mode) then [PathJoin([p, tes[n].name])] else []);
      if IsDirMode(tes[n].mode) {
        assert Weight(repo, path, rev, [PathJoin([p, tes[n].name])]) == PathWeight(repo, path, rev, PathJoin([p, tes[n].name])) by {
          assert [PathJoin([p, tes[n].name])][..0] == [];
        }
      }
    }
  }

  /** Expanding a path pushes paths that together name less than the tree it expanded. */
  lemma ExpandDecreases(repo: Repo, path: string, rev: string, p: string, tes: seq<TreeEntry>)
    requires ValidRepo(repo)
    requires TreeAt(repo, PathJoin([path, p]), rev) == Ok(tes)
    ensures Weight(repo, path, rev, Pushes(p, tes)) < PathWeight(repo, path, rev, p)
  {
    var q := PathJoin([path, p]);
    GetTreeListsChildren(repo, q, rev);
    var d := DirAt(repo, q, rev).value;
    var es := d.entries;
    forall i | 0 <= i < |tes| && IsDirMode(tes[i].mode)
      ensures PathWeight(repo, path, rev, PathJoin([p, tes[i].name])) <= Size(es[i].obj)
    {
      PathJoinAssoc(path, p, tes[i].name);
      ChildDirAt(repo, q, rev, i);
    }
    PushesWeightBound(repo, path, rev, p, tes, es);
  }

  // ---------------------------------------------------------------------------
  // The loop as a function of the stack

  /**
    The rest of a `Find` run from a given stack: the results it appends from
    here on, or the first error of `GetTree`.
   */
  function FindRun(repo: Repo, path: string, rev: string, maxDepth: int, stack: seq<string>): Result<seq<TreeEntry>, Error>
    requires ValidRepo(repo)
    decreases Weight(repo, path, rev, stack), |stack|
  {
    if stack == [] then Ok([])
    else
      var idx := |stack| - 1;
      if maxDepth > 0 && |stack| > maxDepth then
        FindRun(repo, path, rev, maxDepth, stack[..idx])
      else
        var p := stack[idx];
        match TreeAt(repo, PathJoin([path, p]), rev)
        case Err(e) => Err(e)
        case Ok(tes) =>
          ExpandDecreases(repo, path, rev, p, tes);
          WeightConcat(repo, path, rev, stack[..idx], Pushes(p, tes));
          Prepend(Emitted(p, tes), FindRun(repo, path, rev, maxDepth, stack[..idx] + Pushes(p, tes)))
  }

  /** The run pops the top of a stack longer than a positive `maxDepth` without listing it. */
  lemma FindRunDrop(repo: Repo, path: string, rev: string, maxDepth: int, stack: seq<string>)
    requires ValidRepo(repo)
    requires stack != [] && maxDepth > 0 && |stack| > maxDepth
    ensures FindRun(repo, path, rev, maxDepth, stack) == FindRun(repo, path, rev, maxDepth, stack[..|stack| - 1])
  {
  }

  /** Otherwise the run lists the top of the stack: its error, or its entries and then the run from the stack with its pushes. */
  lemma FindRunExpand(repo: Repo, path: string, rev: string, maxDepth: int, stack: seq<string>)
    requires ValidRepo(repo)
    requires stack != [] && !(maxDepth > 0 && |stack| > maxDepth)
    ensures var idx := |stack| - 1;
      var p := stack[idx];
      FindRun(repo, path, rev, maxDepth, stack) ==
        match TreeAt(repo, PathJoin([path, p]), rev)
        case Err(e) => Err(e)
        case Ok(tes) => Prepend(Emitted(p, tes), FindRun(repo, path, rev, maxDepth, stack[..idx] + Pushes(p, tes)))
  {
  }

  lemma PrependPrepend(xs: seq<TreeEntry>, ys: seq<TreeEntry>, r: Result<seq<TreeEntry>, Error>)
    ensures Prepend(xs, Prepend(ys, r)) == Prepend(xs + ys, r)
  {
    if r.Ok? {
      assert xs + (ys + r.value) == (xs + ys) + r.value;
    }
  }

  /** What `Find(path, rev, maxDepth)` returns: the run from the stack holding only the Find root "". */
  function FindResult(repo: Repo, path: string, rev: string, maxDepth: int): Result<seq<TreeEntry>, Error>
    requires ValidRepo(repo)
  {
    FindRun(repo, path, rev, maxDepth, [""])
  }

  /** One entry more: its push, if it is a directory, and its renamed copy. */
  lemma AppendStep(p: string, tes: seq<TreeEntry>, j: int)
    requires 0 <= j < |tes|
    ensures Pushes(p, tes[..j + 1]) == Pushes(p, tes[..j]) + (if IsDirMode(tes[j].mode) then [PathJoin([p, tes[j].name])] else [])
    ensures Emitted(p, tes[..j + 1]) == Emitted(p, tes[..j]) + [TreeEntry(tes[j].hash, PathJoin([p, tes[j].name]), tes[j].mode)]
  {
    assert tes[..j + 1][..j] == tes[..j] && tes[..j + 1][j] == tes[j];
  }

  /**
    The inner loop of `Find` over the entries of one listed tree: appends
    each entry, renamed relative to the Find root, to the results, and pushes
    the paths of those with the directory bit.
   */
  method AppendChildren(p: string, tes: seq<TreeEntry>, stack0: seq<string>, results0: seq<TreeEntry>)
    returns (stack: seq<string>, results: seq<TreeEntry>)
    ensures stack == stack0 + Pushes(p, tes)
    ensures results == results0 + Emitted(p, tes)
  {
    stack, results := stack0, results0;
    for j := 0 to |tes|
      invariant stack == stack0 + Pushes(p, tes[..j])
      invariant results == results0 + Emitted(p, tes[..j])
    {
      var te := tes[j];
      AppendStep(p, tes, j);
      var childPath := GitPathJoin([p, te.name]);
      if IsDirMode(te.mode) {
        stack := stack + [childPath];
      }
      results := results + [TreeEntry(te.hash, childPath, te.mode)];
    }
    assert tes[..|tes|] == tes;
  }

  /**
    `Find`: pops relative paths from a stack, drops a popped path unexpanded
    while the stack is longer than a positive `maxDepth`, and otherwise lists
    its tree, appending every entry to the results and pushing those with the
    directory bit. The loop terminates on a well-formed tree.
   */
  method Find(repo: Repo, path: string, rev: string, maxDepth: int) returns (r: Result<seq<TreeEntry>, Error>)
    requires ValidRepo(repo)
    ensures r == FindResult(repo, path, rev, maxDepth)
  {
    var results: seq<TreeEntry> := [];
    var stack: seq<string> := [""];
    assert FindRun(repo, path, rev, maxDepth, stack).Ok? ==>
      [] + FindRun(repo, path, rev, maxDepth, stack).value == FindRun(repo, path, rev, maxDepth, stack).value;
    while |stack| > 0
      invariant FindResult(repo, path, rev, maxDepth) == Prepend(results, FindRun(repo, path, rev, maxDepth, stack))
      decreases Weight(repo, path, rev, stack), |stack|
    {
      var idx := |stack| - 1;
      if maxDepth > 0 && |stack| > maxDepth {
        FindRunDrop(repo, path, rev, maxDepth, stack);
        stack := stack[..idx];
        continue;
      }
      var p := stack[idx];
      ghost var before := stack;
      FindRunExpand(repo, path, rev, maxDepth, stack);
      stack := stack[..idx];
      var treePath := GitPathJoin([path, p]);
      var tes := GetTree(repo, treePath, rev);
      if tes.Err? {
        return Err(tes.error);
      }
      ghost var results0 := results;
      stack, results := AppendChildren(p, tes.value, stack, results);
      assert FindResult(repo, path, rev, maxDepth) == Prepend(results, FindRun(repo, path, rev, maxDepth, stack)) by {
        PrependPrepend(results0, Emitted(p, tes.value), FindRun(repo, path, rev, maxDepth, stack));
      }
      assert Weight(repo, path, rev, stack) < Weight(repo, path, rev, before) by {
        ExpandDecreases(repo, path, rev, p, tes.value);
        WeightConcat(repo, path, rev, before[..idx], Pushes(p, tes.value));
      }
    }
    assert results + [] == results;
    return Ok(results);
  }

  // ---------------------------------------------------------------------------
  // Properties of Find

  lemma {:induction false} EmittedAt(p: string, tes: seq<TreeEntry>)
    ensures forall k :: 0 <= k < |tes| ==>
      Emitted(p, tes)[k] == TreeEntry(tes[k].hash, PathJoin([p, tes[k].name]), tes[k].mode)
  {
    if tes != [] {
      EmittedAt(p, tes[..|tes| - 1]);
    }
  }

  /** Entries listed for the Find root keep their names: `gitPathJoin("", name) == name`. */
  lemma EmittedFromRoot(tes: seq<TreeEntry>)
    ensures Emitted("", tes) == tes
  {
    EmittedAt("", tes);
    forall k | 0 <= k < |tes| ensures Emitted("", tes)[k] == tes[k] {
      PathJoinOmitsEmpty(tes[k].name, []);
    }
  }

  /**
    Whatever `maxDepth` is, the first thing `Find` does is list the Find root:
    an error of that `GetTree` is the result, and otherwise the results begin
    with exactly its entries, in order and under their own names.
   */
  lemma FindListsRootFirst(repo: Repo, path: string, rev: string, maxDepth: int)
    requires ValidRepo(repo)
    ensures TreeAt(repo, path, rev).Err? ==> FindResult(repo, path, rev, maxDepth) == Err(TreeAt(repo, path, rev).error)
    ensures TreeAt(repo, path, rev).Ok? && FindResult(repo, path, rev, maxDepth).Ok? ==>
      var tes := TreeAt(repo, path, rev).value;
      var rs := FindResult(repo, path, rev, maxDepth).value;
      |tes| <= |rs| && rs[..|tes|] == tes
  {
    FindRunExpand(repo, path, rev, maxDepth, [""]);
    PathJoinOmitsEmpty(path, []);
    if TreeAt(repo, path, rev).Ok? {
      EmittedFromRoot(TreeAt(repo, path, rev).value);
    }
  }

  /** Result `e` is entry `te` of the tree listed for relative path `p`, renamed relative to the Find root. */
  ghost predicate ListedUnder(repo: Repo, path: string, rev: string, p: string, e: TreeEntry) {
    var listing := TreeAt(repo, PathJoin([path, p]), rev);
    listing.Ok? && exists te :: te in listing.value && e == TreeEntry(te.hash, PathJoin([p, te.name]), te.mode)
  }

  ghost predicate AllListed(repo: Repo, path: string, rev: string, rs: seq<TreeEntry>) {
    forall e :: e in rs ==> exists p :: ListedUnder(repo, path, rev, p, e)
  }

  /**
    Every result of `Find` copies the hash and mode of an entry of a tree it
    listed, and is named by joining the listed relative path with the entry's
    name.
   */
  lemma {:induction false} FindResultsAreListedEntries(repo: Repo, path: string, rev: string, maxDepth: int, stack: seq<string>)
    requires ValidRepo(repo)
    ensures FindRun(repo, path, rev, maxDepth, stack).Ok? ==>
      AllListed(repo, path, rev, FindRun(repo, path, rev, maxDepth, stack).value)
    decreases Weight(repo, path, rev, stack), |stack|
  {
    if stack != [] {
      var idx := |stack| - 1;
      if maxDepth > 0 && |stack| > maxDepth {
        FindRunDrop(repo, path, rev, maxDepth, stack);
        FindResultsAreListedEntries(repo, path, rev, maxDepth, stack[..idx]);
      } else {
        var p := stack[idx];
        FindRunExpand(repo, path, rev, maxDepth, stack);
        var listing := TreeAt(repo, PathJoin([path, p]), rev);
        if listing.Ok? {
          var tes := listing.value;
          var rest := stack[..idx] + Pushes(p, tes);
          ExpandDecreases(repo, path, rev, p, tes);
          WeightConcat(repo, path, rev, stack[..idx], Pushes(p, tes));
          FindResultsAreListedEntries(repo, path, rev, maxDepth, rest);
          var r := FindRun(repo, path, rev, maxDepth, stack);
          if r.Ok? {
            var rs := FindRun(repo, path, rev, maxDepth, rest).value;
            assert r.value == Emitted(p, tes) + rs;
            EmittedAt(p, tes);
            forall e | e in r.value ensures exists p' :: ListedUnder(repo, path, rev, p', e) {
              if e !in rs {
                var k :| 0 <= k < |tes| && Emitted(p, tes)[k] == e;
                assert tes[k] in tes;
                assert ListedUnder(repo, path, rev, p, e);
              }
            }
          }
        }
      }
    }
  }

  /**
    Exactly the directory-mode entries of a listed tree are pushed: every
    pushed path is the path of an entry with the bit set, and every such
    entry's path is pushed. Other entries are emitted but never expanded.
   */
  lemma {:induction false} PushesAreDirectories(p: string, tes: seq<TreeEntry>)
    ensures forall x :: x in Pushes(p, tes) ==>
      exists i :: 0 <= i < |tes| && IsDirMode(tes[i].mode) && x == PathJoin([p, tes[i].name])
    ensures forall i :: 0 <= i < |tes| && IsDirMode(tes[i].mode) ==> PathJoin([p, tes[i].name]) in Pushes(p, tes)
  {
    if tes != [] {
      var n := |tes| - 1;
      PushesAreDirectories(p, tes[..n]);
      var xs := Pushes(p, tes[..n]);
      var last := if IsDirMode(tes[n].mode) then [PathJoin([p, tes[n].name])] else [];
      assert Pushes(p, tes) == xs + last;
      forall x | x in Pushes(p, tes)
        ensures exists i :: 0 <= i < |tes| && IsDirMode(tes[i].mode) && x == PathJoin([p, tes[i].name])
      {
        if x in xs {
          var i :| 0 <= i < n && IsDirMode(tes[..n][i].mode) && x == PathJoin([p, tes[..n][i].name]);
          assert tes[i] == tes[..n][i];
        } else {
          assert IsDirMode(tes[n].mode) && x == PathJoin([p, tes[n].name]);
        }
      }
      forall i | 0 <= i < |tes| && IsDirMode(tes[i].mode) ensures PathJoin([p, tes[i].name]) in Pushes(p, tes) {
        if i < n {
          assert tes[..n][i] == tes[i];
          assert PathJoin([p, tes[i].name]) in xs;
        }
      }
    }
  }

  /** Listing relative path `p` with `GetTree` fails with `e`. */
  ghost predicate ListingFails(repo: Repo, path: string, rev: string, p: string, e: Error) {
    TreeAt(repo, PathJoin([path, p]), rev) == Err(e)
  }

  /** `Find` fails only with the error of a `GetTree` it called, and then returns no results. */
  lemma {:induction false} FindErrorIsListingError(repo: Repo, path: string, rev: string, maxDepth: int, stack: seq<string>)
    requires ValidRepo(repo)
    ensures var r := FindRun(repo, path, rev, maxDepth, stack);
      r.Err? ==> exists p :: ListingFails(repo, path, rev, p, r.error)
    decreases Weight(repo, path, rev, stack), |stack|
  {
    if stack != [] {
      var idx := |stack| - 1;
      if maxDepth > 0 && |stack| > maxDepth {
        FindRunDrop(repo, path, rev, maxDepth, stack);
        FindErrorIsListingError(repo, path, rev, maxDepth, stack[..idx]);
      } else {
        var p := stack[idx];
        FindRunExpand(repo, path, rev, maxDepth, stack);
        var listing := TreeAt(repo, PathJoin([path, p]), rev);
        if listing.Err? {
          assert ListingFails(repo, path, rev, p, listing.error);
        } else {
          var tes := listing.value;
          ExpandDecreases(repo, path, rev, p, tes);
          WeightConcat(repo, path, rev, stack[..idx], Pushes(p, tes));
          FindErrorIsListingError(repo, path, rev, maxDepth, stack[..idx] + Pushes(p, tes));
        }
      }
    }
  }

  /**
    The bound looks at the stack, not at the tree: with a positive
    `maxDepth`, every path stacked above position `maxDepth` is dropped
    without being listed, however shallow it is.
   */
  lemma {:induction false} FindDropsAboveBound(repo: Repo, path: string, rev: string, maxDepth: int, stack: seq<string>)
    requires ValidRepo(repo)
    requires 0 < maxDepth <= |stack|
    ensures FindRun(repo, path, rev, maxDepth, stack) == FindRun(repo, path, rev, maxDepth, stack[..maxDepth])
    decreases |stack|
  {
    if |stack| > maxDepth {
      FindRunDrop(repo, path, rev, maxDepth, stack);
      assert stack[..|stack| - 1][..maxDepth] == stack[..maxDepth];
      FindDropsAboveBound(repo, path, rev, maxDepth, stack[..|stack| - 1]);
    } else {
      assert stack[..maxDepth] == stack;
    }
  }

  /**
    With `maxDepth == 1`, after the Find root only its first subdirectory is
    listed (the others are dropped), yet that subdirectory is listed too:
    its entries, at nesting depth 2, follow the root's.
   */
  lemma FindDepthOneListsFirstSubdirectory(repo: Repo, path: string, rev: string)
    requires ValidRepo(repo)
    requires TreeAt(repo, path, rev).Ok?
    requires Pushes("", TreeAt(repo, path, rev).value) != []
    ensures var tes := TreeAt(repo, path, rev).value;
      var d := Pushes("", tes)[0];
      && FindResult(repo, path, rev, 1) == Prepend(tes, FindRun(repo, path, rev, 1, [d]))
      && FindRun(repo, path, rev, 1, [d]) ==
           match TreeAt(repo, PathJoin([path, d]), rev)
           case Err(e) => Err(e)
           case Ok(sub) => Prepend(Emitted(d, sub), FindRun(repo, path, rev, 1, Pushes(d, sub)))
  {
    var tes := TreeAt(repo, path, rev).value;
    var d := Pushes("", tes)[0];
    FindListsRootFirst(repo, path, rev, 1);
    FindRunExpand(repo, path, rev, 1, [""]);
    PathJoinOmitsEmpty(path, []);
    EmittedFromRoot(tes);
    assert [""][..0] + Pushes("", tes) == Pushes("", tes);
    FindDropsAboveBound(repo, path, rev, 1, Pushes("", tes));
    assert Pushes("", tes)[..1] == [d];
    FindRunExpand(repo, path, rev, 1, [d]);
    assert [d][..0] == [];
    var listing := TreeAt(repo, PathJoin([path, d]), rev);
    if listing.Ok? {
      assert [d][..0] + Pushes(d, listing.value) == Pushes(d, listing.value);
    }
  }

  /**
    A gitlink (submodule entry) has mode 0160000, which carries the directory
    bit, so `Find` pushes it like a directory; `GetTree` on its path finds no
    tree there. When the last entry of the listed tree is a gitlink, it is
    the first path popped after the Find root, and the whole call fails with
    "obtaining file or directory failed" unless `maxDepth` drops it.
   */
  lemma FindFailsAtGitlink(repo: Repo, path: string, rev: string, maxDepth: int)
    requires ValidRepo(repo)
    requires DirAt(repo, path, rev).Some?
    requires var es := DirAt(repo, path, rev).value.entries;
      es != [] && es[|es| - 1].mode == SubmoduleMode && es[|es| - 1].obj.Blob?
    requires maxDepth <= 0 || |DirAt(repo, path, rev).value.entries| <= maxDepth
    ensures IsDirMode(SubmoduleMode)
    ensures FindResult(repo, path, rev, maxDepth) == Err(ObtainingFileOrDirFailed)
  {
    GitlinkOnTop(repo, path, rev, maxDepth);
    var stack := Pushes("", TreeAt(repo, path, rev).value);
    RootThenPushes(repo, path, rev, maxDepth);
    RunFailsAtTop(repo, path, rev, maxDepth, stack);
  }

  /** After the root is listed, the gitlink is on top of the stack, kept by the bound, and its listing fails. */
  lemma GitlinkOnTop(repo: Repo, path: string, rev: string, maxDepth: int)
    requires ValidRepo(repo)
    requires DirAt(repo, path, rev).Some?
    requires var es := DirAt(repo, path, rev).value.entries;
      es != [] && es[|es| - 1].mode == SubmoduleMode && es[|es| - 1].obj.Blob?
    requires maxDepth <= 0 || |DirAt(repo, path, rev).value.entries| <= maxDepth
    ensures TreeAt(repo, path, rev).Ok?
    ensures var stack := Pushes("", TreeAt(repo, path, rev).value);
      && stack != [] && !(maxDepth > 0 && |stack| > maxDepth)
      && TreeAt(repo, PathJoin([path, stack[|stack| - 1]]), rev) == Err(ObtainingFileOrDirFailed)
  {
    var es := DirAt(repo, path, rev).value.entries;
    var name := es[|es| - 1].name;
    GetTreeListsChildren(repo, path, rev);
    var tes := TreeAt(repo, path, rev).value;
    GitlinkPushedLast(tes, name);
    PushesLength("", tes);
    GitlinkListingFails(repo, path, rev);
  }

  /** After listing the Find root, the run goes on from the root's pushes. */
  lemma RootThenPushes(repo: Repo, path: string, rev: string, maxDepth: int)
    requires ValidRepo(repo)
    requires TreeAt(repo, path, rev).Ok?
    ensures var tes := TreeAt(repo, path, rev).value;
      FindResult(repo, path, rev, maxDepth) == Prepend(tes, FindRun(repo, path, rev, maxDepth, Pushes("", tes)))
  {
    var tes := TreeAt(repo, path, rev).value;
    PathJoinOmitsEmpty(path, []);
    FindRunExpand(repo, path, rev, maxDepth, [""]);
    EmittedFromRoot(tes);
    assert [""][..0] + Pushes("", tes) == Pushes("", tes);
  }

  /** A listing error of the path on top of a stack the bound keeps ends the run with that error. */
  lemma RunFailsAtTop(repo: Repo, path: string, rev: string, maxDepth: int, stack: seq<string>)
    requires ValidRepo(repo)
    requires stack != [] && !(maxDepth > 0 && |stack| > maxDepth)
    requires TreeAt(repo, PathJoin([path, stack[|stack| - 1]]), rev).Err?
    ensures FindRun(repo, path, rev, maxDepth, stack) == Err(TreeAt(repo, PathJoin([path, stack[|stack| - 1]]), rev).error)
  {
    FindRunExpand(repo, path, rev, maxDepth, stack);
  }

  /** A listing whose last entry is a gitlink named `name` pushes `name` last. */
  lemma GitlinkPushedLast(tes: seq<TreeEntry>, name: string)
    requires tes != [] && tes[|tes| - 1].mode == SubmoduleMode && tes[|tes| - 1].name == name
    ensures Pushes("", tes) != [] && Pushes("", tes)[|Pushes("", tes)| - 1] == name
  {
    PathJoinOmitsEmpty(name, []);
  }

  lemma {:induction false} PushesLength(p: string, tes: seq<TreeEntry>)
    ensures |Pushes(p, tes)| <= |tes|
  {
    if tes != [] {
      PushesLength(p, tes[..|tes| - 1]);
    }
  }

  /** `GetTree` on the path of a gitlink of the listed tree fails: there is no tree there. */
  lemma GitlinkListingFails(repo: Repo, path: string, rev: string)
    requires ValidRepo(repo)
    requires DirAt(repo, path, rev).Some?
    requires var es := DirAt(repo, path, rev).value.entries;
      es != [] && es[|es| - 1].obj.Blob?
    ensures var es := DirAt(repo, path, rev).value.entries;
      TreeAt(repo, PathJoin([path, es[|es| - 1].name]), rev) == Err(ObtainingFileOrDirFailed)
  {
    var es := DirAt(repo, path, rev).value.entries;
    var name := es[|es| - 1].name;
    DirAtValid(repo, path, rev);
    ChildDirAt(repo, path, rev, |es| - 1);
    PathJoinPair(path, name);
    assert PathJoin([path, name]) != "";
  }

  // ---------------------------------------------------------------------------
  // Completeness on well-formed trees

  /** The directory bit of every entry agrees with whether its object is a tree. */
  predicate ModesAgree(o: Object)
    decreases o
  {
    match o
    case Blob(_, _, _) => true
    case Tree(_, es) => forall i :: 0 <= i < |es| ==> (IsDirMode(es[i].mode) <==> es[i].obj.Tree?) && ModesAgree(es[i].obj)
  }

  /** Trees are well formed and the modes of the tree at `rev` agree with its objects. */
  predicate WellFormedAt(repo: Repo, rev: string) {
    ValidRepo(repo) && (RootAt(repo, rev).Ok? ==> ModesAgree(RootAt(repo, rev).value))
  }

  /** Every entry below `o`, named relative to `p`, as `Find` would rename it. */
  function Descendants(p: string, o: Object): set<TreeEntry>
    decreases Size(o), 0
  {
    match o
    case Blob(_, _, _) => {}
    case Tree(_, es) => EntriesDescendants(p, es)
  }

  function EntriesDescendants(p: string, es: seq<Entry>): set<TreeEntry>
    decreases EntriesSize(es), 1
  {
    if es == [] then {}
    else
      var e := es[|es| - 1];
      var child := PathJoin([p, e.name]);
      EntriesDescendants(p, es[..|es| - 1])
        + {TreeEntry(e.obj.hash, child, e.mode)}
        + (if IsDirMode(e.mode) then Descendants(child, e.obj) else {})
  }

  /** The descendants of the trees the stacked paths name. */
  function StackDescendants(repo: Repo, path: string, rev: string, stack: seq<string>): set<TreeEntry> {
    if stack == [] then {}
    else
      var s := stack[|stack| - 1];
      var d := DirAt(repo, PathJoin([path, s]), rev);
      StackDescendants(repo, path, rev, stack[..|stack| - 1]) + (if d.Some? then Descendants(s, d.value) else {})
  }

  /** The entries of a result, as a set. */
  function Listed(rs: seq<TreeEntry>): set<TreeEntry> {
    set e | e in rs
  }

  lemma ListedConcat(xs: seq<TreeEntry>, ys: seq<TreeEntry>)
    ensures Listed(xs + ys) == Listed(xs) + Listed(ys)
  {
  }

  lemma {:induction false} StackDescendantsConcat(repo: Repo, path: string, rev: string, xs: seq<string>, ys: seq<string>)
    ensures StackDescendants(repo, path, rev, xs + ys) == StackDescendants(repo, path, rev, xs) + StackDescendants(repo, path, rev, ys)
    decreases |ys|
  {
    if ys == [] {
      assert xs + ys == xs;
    } else {
      assert (xs + ys)[..|xs + ys| - 1] == xs + ys[..|ys| - 1];
      StackDescendantsConcat(repo, path, rev, xs, ys[..|ys| - 1]);
    }
  }

  lemma {:induction false} FindEntryAgrees(es: seq<Entry>, segs: seq<string>)
    requires |segs| >= 1
    requires forall i :: 0 <= i < |es| ==> ModesAgree(es[i].obj)
    ensures FindEntry(es, segs).Some? ==> ModesAgree(FindEntry(es, segs).value.obj)
    decreases |segs|
  {
    var e := EntryNamed(es, segs[0]);
    if |segs| > 1 && e.Some? && e.value.obj.Tree? {
      var k :| 0 <= k < |es| && es[k] == e.value;
      FindEntryAgrees(e.value.obj.entries, segs[1..]);
    }
  }

  lemma DirAtAgrees(repo: Repo, q: string, rev: string)
    requires WellFormedAt(repo, rev)
    requires DirAt(repo, q, rev).Some?
    ensures ModesAgree(DirAt(repo, q, rev).value)
  {
    var root := RootAt(repo, rev).value;
    if q != "" {
      FindEntryAgrees(root.entries, Split(q));
    }
  }

  /** The pushed path of a directory entry of the tree listed for `p` names that entry's tree. */
  lemma ChildTreeAt(repo: Repo, path: string, rev: string, p: string, d: Object, n: nat)
    requires ValidRepo(repo)
    requires DirAt(repo, PathJoin([path, p]), rev) == Some(d)
    requires d.Tree? && n < |d.entries| && d.entries[n].obj.Tree?
    ensures DirAt(repo, PathJoin([path, PathJoin([p, d.entries[n].name])]), rev) == Some(d.entries[n].obj)
  {
    PathJoinAssoc(path, p, d.entries[n].name);
    ChildDirAt(repo, PathJoin([path, p]), rev, n);
  }

  /** The descendants a pushed path stands for are those of the entry it was pushed for. */
  ghost predicate PushStandsFor(repo: Repo, path: string, rev: string, p: string, e: Entry) {
    IsDirMode(e.mode) ==>
      StackDescendants(repo, path, rev, [PathJoin([p, e.name])]) == Descendants(PathJoin([p, e.name]), e.obj)
  }

  /**
    One listing of entries `es` at relative path `p` accounts for all their
    descendants: the entries it emits and the descendants of the paths it
    pushes.
   */
  lemma {:induction false} ListingCoversDescendants(repo: Repo, path: string, rev: string, p: string, es: seq<Entry>, tes: seq<TreeEntry>)
    requires |tes| == |es|
    requires forall i :: 0 <= i < |es| ==> tes[i] == TreeEntry(es[i].obj.hash, es[i].name, es[i].mode)
    requires forall i :: 0 <= i < |es| ==> PushStandsFor(repo, path, rev, p, es[i])
    ensures EntriesDescendants(p, es) == Listed(Emitted(p, tes)) + StackDescendants(repo, path, rev, Pushes(p, tes))
  {
    if es != [] {
      var n := |es| - 1;
      ListingCoversDescendants(repo, path, rev, p, es[..n], tes[..n]);
      ListingStep(repo, path, rev, p, es, tes);
    }
  }

  /** The last entry of a listing adds itself and, for a directory, what its pushed path stands for. */
  lemma ListingStep(repo: Repo, path: string, rev: string, p: string, es: seq<Entry>, tes: seq<TreeEntry>)
    requires |tes| == |es| > 0
    requires var e := es[|es| - 1]; tes[|es| - 1] == TreeEntry(e.obj.hash, e.name, e.mode)
    requires PushStandsFor(repo, path, rev, p, es[|es| - 1])
    requires var n := |es| - 1;
      EntriesDescendants(p, es[..n]) == Listed(Emitted(p, tes[..n])) + StackDescendants(repo, path, rev, Pushes(p, tes[..n]))
    ensures EntriesDescendants(p, es) == Listed(Emitted(p, tes)) + StackDescendants(repo, path, rev, Pushes(p, tes))
  {
    var n := |es| - 1;
    var e := es[n];
    var child := PathJoin([p, e.name]);
    var t := TreeEntry(e.obj.hash, child, e.mode);
    var below := if IsDirMode(e.mode) then Descendants(child, e.obj) else {};
    var pushed := if IsDirMode(e.mode) then [child] else [];
    LastEmitted(p, tes);
    ListedConcat(Emitted(p, tes[..n]), [t]);
    StackDescendantsConcat(repo, path, rev, Pushes(p, tes[..n]), pushed);
    UnionStep(EntriesDescendants(p, es[..n]), Listed(Emitted(p, tes[..n])), StackDescendants(repo, path, rev, Pushes(p, tes[..n])),
      t, below, StackDescendants(repo, path, rev, pushed));
  }

  lemma LastEmitted(p: string, tes: seq<TreeEntry>)
    requires tes != []
    ensures var te := tes[|tes| - 1];
      Listed(Emitted(p, tes)) == Listed(Emitted(p, tes[..|tes| - 1]) + [TreeEntry(te.hash, PathJoin([p, te.name]), te.mode)])
  {
  }

  lemma UnionStep(a: set<TreeEntry>, l: set<TreeEntry>, s: set<TreeEntry>, t: TreeEntry, b: set<TreeEntry>, b': set<TreeEntry>)
    requires a == l + s && b == b'
    ensures a + {t} + b == (l + {t}) + (s + b')
  {
  }

  /** In a listed tree whose modes agree, every pushed path stands for its entry's descendants. */
  lemma ListedTreePushes(repo: Repo, path: string, rev: string, p: string, d: Object)
    requires ValidRepo(repo)
    requires DirAt(repo, PathJoin([path, p]), rev) == Some(d)
    requires d.Tree? && ModesAgree(d)
    ensures forall i :: 0 <= i < |d.entries| ==> PushStandsFor(repo, path, rev, p, d.entries[i])
  {
    forall i | 0 <= i < |d.entries| ensures PushStandsFor(repo, path, rev, p, d.entries[i]) {
      var e := d.entries[i];
      var child := PathJoin([p, e.name]);
      if IsDirMode(e.mode) {
        ChildTreeAt(repo, path, rev, p, d, i);
        assert [child][..0] == [];
      }
    }
  }

  /** Every path a listing of a well-formed tree pushes names a tree. */
  lemma PushesNameTrees(repo: Repo, path: string, rev: string, p: string, d: Object, tes: seq<TreeEntry>)
    requires ValidRepo(repo)
    requires DirAt(repo, PathJoin([path, p]), rev) == Some(d)
    requires d.Tree? && ModesAgree(d) && |tes| == |d.entries|
    requires forall i :: 0 <= i < |tes| ==> tes[i] == TreeEntry(d.entries[i].obj.hash, d.entries[i].name, d.entries[i].mode)
    ensures forall x :: x in Pushes(p, tes) ==> DirAt(repo, PathJoin([path, x]), rev).Some?
  {
    PushesAreDirectories(p, tes);
    forall x | x in Pushes(p, tes) ensures DirAt(repo, PathJoin([path, x]), rev).Some? {
      var i :| 0 <= i < |tes| && IsDirMode(tes[i].mode) && x == PathJoin([p, tes[i].name]);
      ChildTreeAt(repo, path, rev, p, d, i);
    }
  }

  /**
    Listing a tree of a well-formed tree succeeds, pushes only paths that
    name trees, and accounts for all its descendants.
   */
  lemma ListingOfTree(repo: Repo, path: string, rev: string, p: string)
    requires WellFormedAt(repo, rev)
    requires DirAt(repo, PathJoin([path, p]), rev).Some?
    ensures TreeAt(repo, PathJoin([path, p]), rev).Ok?
    ensures var tes := TreeAt(repo, PathJoin([path, p]), rev).value;
      && (forall x :: x in Pushes(p, tes) ==> DirAt(repo, PathJoin([path, x]), rev).Some?)
      && Descendants(p, DirAt(repo, PathJoin([path, p]), rev).value)
           == Listed(Emitted(p, tes)) + StackDescendants(repo, path, rev, Pushes(p, tes))
  {
    var q := PathJoin([path, p]);
    GetTreeListsChildren(repo, q, rev);
    var d := DirAt(repo, q, rev).value;
    var tes := TreeAt(repo, q, rev).value;
    DirAtAgrees(repo, q, rev);
    ListedTreePushes(repo, path, rev, p, d);
    ListingCoversDescendants(repo, path, rev, p, d.entries, tes);
    PushesNameTrees(repo, path, rev, p, d, tes);
  }

  /**
    From a stack of paths that name trees of a well-formed tree, the run
    succeeds and finds only descendants of the stacked trees; when
    `maxDepth <= 0` it finds all of them.
   */
  lemma {:induction false} FindRunCovers(repo: Repo, path: string, rev: string, maxDepth: int, stack: seq<string>)
    requires WellFormedAt(repo, rev)
    requires forall x :: x in stack ==> DirAt(repo, PathJoin([path, x]), rev).Some?
    ensures FindRun(repo, path, rev, maxDepth, stack).Ok?
    ensures Listed(FindRun(repo, path, rev, maxDepth, stack).value) <= StackDescendants(repo, path, rev, stack)
    ensures maxDepth <= 0 ==> Listed(FindRun(repo, path, rev, maxDepth, stack).value) == StackDescendants(repo, path, rev, stack)
    decreases Weight(repo, path, rev, stack), |stack|
  {
    if stack != [] {
      var idx := |stack| - 1;
      var p := stack[idx];
      if maxDepth > 0 && |stack| > maxDepth {
        FindRunDrop(repo, path, rev, maxDepth, stack);
        FindRunCovers(repo, path, rev, maxDepth, stack[..idx]);
      } else {
        FindRunExpand(repo, path, rev, maxDepth, stack);
        ListingOfTree(repo, path, rev, p);
        var tes := TreeAt(repo, PathJoin([path, p]), rev).value;
        var rest := stack[..idx] + Pushes(p, tes);
        ExpandDecreases(repo, path, rev, p, tes);
        WeightConcat(repo, path, rev, stack[..idx], Pushes(p, tes));
        FindRunCovers(repo, path, rev, maxDepth, rest);
        StackDescendantsConcat(repo, path, rev, stack[..idx], Pushes(p, tes));
        ListedConcat(Emitted(p, tes), FindRun(repo, path, rev, maxDepth, rest).value);
      }
    }
  }

  /**
    On a well-formed tree, `Find` on a path that names a tree succeeds and
    returns only descendants of that tree, renamed relative to it; with
    `maxDepth <= 0` it returns every descendant.
   */
  lemma FindComplete(repo: Repo, path: string, rev: string, maxDepth: int)
    requires WellFormedAt(repo, rev)
    requires DirAt(repo, path, rev).Some?
    ensures FindResult(repo, path, rev, maxDepth).Ok?
    ensures Listed(FindResult(repo, path, rev, maxDepth).value) <= Descendants("", DirAt(repo, path, rev).value)
    ensures maxDepth <= 0 ==> Listed(FindResult(repo, path, rev, maxDepth).value) == Descendants("", DirAt(repo, path, rev).value)
  {
    PathJoinOmitsEmpty(path, []);
    FindRunCovers(repo, path, rev, maxDepth, [""]);
    assert [""][..0] == [];
  }

  /** An unbounded `Find` returns every entry a bounded one returns. */
  lemma FindBoundedWithinUnbounded(repo: Repo, path: string, rev: string, maxDepth: int)
    requires WellFormedAt(repo, rev)
    requires DirAt(repo, path, rev).Some?
    ensures FindResult(repo, path, rev, maxDepth).Ok? && FindResult(repo, path, rev, 0).Ok?
    ensures Listed(FindResult(repo, path, rev, maxDepth).value) <= Listed(FindResult(repo, path, rev, 0).value)
  {
    FindComplete(repo, path, rev, maxDepth);
    FindComplete(repo, path, rev, 0);
  }
}
