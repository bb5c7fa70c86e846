/**
  The resolver chain of resolver/resolver.go: a resolver turns a flat
  argument list into a description of what to open (a blob of the
  repository, or a file of the host's file system) or an error. Opening
  itself is I/O and is not modelled: an `Opener` only names its target, so
  that what is checked before a file is opened can be stated.
 */
module Resolver {
  import opened Wrappers
  import opened GoStrings
  import opened FilePath
  import opened Repo

  /** The four resolver variants; a route maps scheme names to further resolvers. */
  datatype Resolver =
    | RevResolver(repo: Repo)
    | WorktreeResolver(projectPath: string)
    | ExternalResolver(prefixWhitelist: seq<string>)
    | RouteResolver(resolverMap: map<string, Resolver>)

  /** A successful resolution: the opener and, for a blob, its `FileStat`. */
  datatype Resolved = Resolved(opener: Opener, meta: Option<FileStat>)

  datatype ResolveError =
    | RevArity                   // "RevResolver#Resolve requires 2 args"
    | WorktreeArity              // "WorktreeResolver#Resolve requires 1 args"
    | ExternalArity              // "ExternalResolver#Resolve requires 1 args"
    | RouteArity                 // "RouteResolver#Resolve requires 1 args at least"
    | InvalidPath(fname: string)         // "invalid path: " + fname
    | NotWhitelisted(fpath: string)      // fpath + " is not in the white list"
    | ResolverNotFound(name: string)     // "Resolver '" + name + "' not found"
    | RepoFailure(cause: Error)          // an error of `GetFileOpener`

  /** Some whitelist entry is a string prefix of `fpath`. */
  predicate Whitelisted(fpath: string, wl: seq<string>) {
    exists i :: 0 <= i < |wl| && PathHasPrefix(fpath, wl[i])
  }

  /** What `WorktreeResolver.Resolve([fname])` does after its arity check. */
  function WorktreeOpen(projectPath: string, fname: string): Result<Resolved, ResolveError> {
    var fpath := Join([projectPath, fname]);
    if !PathHasPrefix(fpath, projectPath) then Err(InvalidPath(fname))
    else Ok(Resolved(OsFile(fpath), None))
  }

  /** What `ExternalResolver.Resolve([arg])` does after its arity check. */
  function ExternalOpen(wl: seq<string>, arg: string): Result<Resolved, ResolveError> {
    var fpath := Clean(arg);
    if !Whitelisted(fpath, wl) then Err(NotWhitelisted(fpath))
    else Ok(Resolved(OsFile(fpath), None))
  }

  /** What `RevResolver.Resolve([rev, path])` does: `GetFileOpener(path, rev)`. */
  function RevOpen(repo: Repo, rev: string, path: string): Result<Resolved, ResolveError> {
    match GetFileOpener(repo, path, rev)
    case Err(e) => Err(RepoFailure(e))
    case Ok((opener, stat)) => Ok(Resolved(opener, Some(stat)))
  }

  /** The outcome of `Resolve(args)` on resolver `r`. */
  function Resolution(r: Resolver, args: seq<string>): Result<Resolved, ResolveError>
    decreases r
  {
    match r
    case RevResolver(repo) =>
      if |args| == 2 then RevOpen(repo, args[0], args[1]) else Err(RevArity)
    case WorktreeResolver(projectPath) =>
      if |args| == 1 then WorktreeOpen(projectPath, args[0]) else Err(WorktreeArity)
    case ExternalResolver(wl) =>
      if |args| == 1 then ExternalOpen(wl, args[0]) else Err(ExternalArity)
    case RouteResolver(m) =>
      if |args| < 1 then Err(RouteArity)
      else if args[0] in m then Resolution(m[args[0]], args[1..])
      else Err(ResolverNotFound(args[0]))
  }

  /** The scan of `ExternalResolver.Resolve`: a flag set at the first whitelist prefix of `fpath`. */
  method ScanWhitelist(wl: seq<string>, fpath: string) returns (ok: bool)
    ensures ok <==> Whitelisted(fpath, wl)
  {
    ok := false;
    for i := 0 to |wl|
      invariant !ok
      invariant forall j :: 0 <= j < i ==> !PathHasPrefix(fpath, wl[j])
    {
      if PathHasPrefix(fpath, wl[i]) {
        ok := true;
        break;
      }
    }
  }

  /**
    The four `Resolve` methods, in statement form: the same dispatch as
    `Resolution`, with the whitelist scanned by the loop of the external
    resolver. `Resolution` is the specification the lemmas below are about;
    this method is the executable counterpart proved equal to it.
   */
  method Resolve(r: Resolver, args: seq<string>) returns (res: Result<Resolved, ResolveError>)
    ensures res == Resolution(r, args)
    decreases r
  {
    match r
    case RevResolver(repo) =>
      if |args| == 2 {
        var path, rev := args[1], args[0];
        var got := GetFileOpener(repo, path, rev);
        if got.Err? {
          return Err(RepoFailure(got.error));
        }
        return Ok(Resolved(got.value.0, Some(got.value.1)));
      }
      return Err(RevArity);
    case WorktreeResolver(projectPath) =>
      if |args| == 1 {
        var fname := args[0];
        var fpath := Join([projectPath, fname]);
        if !PathHasPrefix(fpath, projectPath) {
          return Err(InvalidPath(fname));
        }
        return Ok(Resolved(OsFile(fpath), None));
      }
      return Err(WorktreeArity);
    case ExternalResolver(wl) =>
      if |args| == 1 {
        var fpath := Clean(args[0]);
        var ok := ScanWhitelist(wl, fpath);
        if !ok {
          return Err(NotWhitelisted(fpath));
        }
        return Ok(Resolved(OsFile(fpath), None));
      }
      return Err(ExternalArity);
    case RouteResolver(m) =>
      if |args| < 1 {
        return Err(RouteArity);
      }
      var name := args[0];
      if name in m {
        res := Resolve(m[name], args[1..]);
      } else {
        res := Err(ResolverNotFound(name));
      }
  }

  /** `NewDefaultResolver`: a route with the schemes "rev", "work" and "ext", the last with an empty whitelist. */
  function NewDefaultResolver(projectPath: string, repo: Repo): (r: Resolver)
    ensures r.RouteResolver? && r.resolverMap.Keys == {"rev", "work", "ext"}
  {
    RouteResolver(map[
      "rev" := RevResolver(repo),
      "work" := WorktreeResolver(projectPath),
      "ext" := ExternalResolver([])])
  }

  // ---------------------------------------------------------------------------
  // Arity and dispatch

  /**
    Each leaf resolver insists on its exact number of arguments: two for
    `RevResolver` (revision, then path), one for the other two. A route
    needs at least the scheme name (a nested route may report the same
    error for the arguments left after its scheme).
   */
  lemma ResolutionArity(r: Resolver, args: seq<string>)
    ensures r.RevResolver? ==> (|args| != 2 <==> Resolution(r, args) == Err(RevArity))
    ensures r.WorktreeResolver? ==> (|args| != 1 <==> Resolution(r, args) == Err(WorktreeArity))
    ensures r.ExternalResolver? ==> (|args| != 1 <==> Resolution(r, args) == Err(ExternalArity))
    ensures r.RouteResolver? && |args| == 0 ==> Resolution(r, args) == Err(RouteArity)
  {
  }

  /**
    A route hands the arguments after the scheme to the resolver the scheme
    maps to, and names an unknown scheme in its error.
   */
  lemma RouteDispatch(m: map<string, Resolver>, args: seq<string>)
    requires |args| >= 1
    ensures args[0] in m ==> Resolution(RouteResolver(m), args) == Resolution(m[args[0]], args[1..])
    ensures args[0] !in m ==> Resolution(RouteResolver(m), args) == Err(ResolverNotFound(args[0]))
  {
  }

  // ---------------------------------------------------------------------------
  // Validation precedes opening

  /**
    A file of the host may be opened at `p` through `r`: a work tree below
    `r` has `p` as its project path's string extension, or an external
    resolver below `r` whitelists `p` and `p` is clean.
   */
  predicate Admits(r: Resolver, p: string)
    decreases r
  {
    match r
    case RevResolver(_) => false
    case WorktreeResolver(projectPath) => PathHasPrefix(p, projectPath)
    case ExternalResolver(wl) => Whitelisted(p, wl) && Clean(p) == p
    case RouteResolver(m) => exists name :: name in m && Admits(m[name], p)
  }

  /**
    No resolution names a host file that has not passed the check of the
    resolver that produced it; a repository blob comes only with its stat.
   */
  lemma {:induction false} ResolutionValidatesFirst(r: Resolver, args: seq<string>)
    ensures var res := Resolution(r, args);
      res.Ok? && res.value.opener.OsFile? ==> Admits(r, res.value.opener.path) && res.value.meta.None?
    ensures var res := Resolution(r, args);
      res.Ok? && res.value.opener.BlobReader? ==> res.value.meta.Some? && res.value.meta.value.id == res.value.opener.hash
    decreases r
  {
    match r
    case RevResolver(repo) =>
    case WorktreeResolver(_) =>
    case ExternalResolver(_) =>
      if |args| == 1 {
        CleanIdempotent(args[0]);
      }
    case RouteResolver(m) =>
      if |args| >= 1 && args[0] in m {
        ResolutionValidatesFirst(m[args[0]], args[1..]);
      }
  }

  // ---------------------------------------------------------------------------
  // The external resolver's whitelist

  /**
    The external resolver accepts exactly when a whitelist entry is a string
    prefix of the cleaned argument, and then opens the cleaned path, which
    `Clean` leaves as it is; otherwise it names the cleaned path in its error.
   */
  lemma ExternalAcceptsWhitelisted(wl: seq<string>, arg: string)
    ensures Resolution(ExternalResolver(wl), [arg]).Ok? <==> Whitelisted(Clean(arg), wl)
    ensures Resolution(ExternalResolver(wl), [arg]).Ok? ==>
      Resolution(ExternalResolver(wl), [arg]).value == Resolved(OsFile(Clean(arg)), None)
      && Clean(Clean(arg)) == Clean(arg)
    ensures Resolution(ExternalResolver(wl), [arg]).Err? ==>
      Resolution(ExternalResolver(wl), [arg]) == Err(NotWhitelisted(Clean(arg)))
  {
    CleanIdempotent(arg);
  }

  /** An empty whitelist rejects every argument list. */
  lemma ExternalEmptyRejects(args: seq<string>)
    ensures Resolution(ExternalResolver([]), args).Err?
  {
  }

  /**
    The whitelist sees the path after `Clean` has resolved its ".."
    elements: an absolute argument is opened at a path with no ".." element
    left, so a whitelisted absolute prefix cannot be climbed out of.
   */
  lemma ExternalOpensNoParentElement(wl: seq<string>, arg: string)
    requires IsRooted(arg)
    requires Resolution(ExternalResolver(wl), [arg]).Ok?
    ensures var p := Resolution(ExternalResolver(wl), [arg]).value.opener.path;
      IsRooted(p) && forall i :: 0 <= i < |Split(p)| ==> Split(p)[i] != ".."
  {
    CleanRooted(arg);
  }

  // ---------------------------------------------------------------------------
  // The work tree's sandbox

  /** `filepath.Join` of a non-empty project path and a name cleans them joined by "/". */
  lemma JoinPair(projectPath: string, fname: string)
    requires projectPath != ""
    ensures Join([projectPath, fname]) == Clean(projectPath + "/" + fname)
  {
    assert [projectPath, fname][1..] == [fname];
    assert JoinSlash([projectPath, fname]) == projectPath + "/" + JoinSlash([fname]);
  }

  /**
    The work tree resolver opens exactly the joined path, and only when the
    project path is a string prefix of it.
   */
  lemma WorktreeOpensJoined(projectPath: string, fname: string)
    ensures Resolution(WorktreeResolver(projectPath), [fname]).Ok? <==> PathHasPrefix(Join([projectPath, fname]), projectPath)
    ensures Resolution(WorktreeResolver(projectPath), [fname]).Ok? ==>
      Resolution(WorktreeResolver(projectPath), [fname]).value == Resolved(OsFile(Join([projectPath, fname])), None)
    ensures Resolution(WorktreeResolver(projectPath), [fname]).Err? ==>
      Resolution(WorktreeResolver(projectPath), [fname]) == Err(InvalidPath(fname))
  {
  }

  /**
    A name whose elements are never ".." stays inside a clean absolute
    project path: it is accepted and opened at the cleaned join.
   */
  lemma WorktreeAdmitsDownward(root: seq<string>, fname: string)
    requires Normal(true, root)
    requires forall i :: 0 <= i < |Split(fname)| ==> Split(fname)[i] != ".."
    ensures var projectPath := Render(true, root);
      Resolution(WorktreeResolver(projectPath), [fname]) == Ok(Resolved(OsFile(Join([projectPath, fname])), None))
  {
    var projectPath := Render(true, root);
    RenderRoundTrip(true, root);
    JoinPair(projectPath, fname);
    CleanAfterRooted(root, fname);
    NormalizeExtends(true, root, Split(fname));
    var out := Normalize(true, root, Split(fname));
    assert out == root + out[|root|..];
    RenderExtends(root, out[|root|..]);
  }

  /**
    ".." alone climbs out of a clean absolute project path below "/" and is
    rejected as an invalid path.
   */
  lemma WorktreeRejectsParent(root: seq<string>, last: string)
    requires Normal(true, root + [last])
    ensures Resolution(WorktreeResolver(Render(true, root + [last])), [".."]) == Err(InvalidPath(".."))
  {
    var projectPath := Render(true, root + [last]);
    RenderRoundTrip(true, root + [last]);
    JoinPair(projectPath, "..");
    CleanAfterRooted(root + [last], "..");
    ParentStep(root, last);
    SplitNoSlash("..");
    assert Normalize(true, root + [last], [".."]) == root;
    RenderShorter(root, last);
  }

  /** ".." after a clean absolute path removes its last element. */
  lemma ParentStep(root: seq<string>, last: string)
    requires Normal(true, root + [last])
    ensures IsKeptElement(last) && Step(true, root + [last], "..") == root
  {
    var xs := root + [last];
    assert xs[|root|] == last;
    assert xs[..|root|] == root;
  }

  lemma RenderShorter(root: seq<string>, last: string)
    requires last != ""
    ensures |Render(true, root)| < |Render(true, root + [last])|
  {
    if root != [] {
      JoinSlashConcat(root, [last]);
    } else {
      assert root + [last] == [last];
    }
  }

  /**
    The sandbox compares strings, not path elements: from the project path
    `/…/last`, the name `../s` is accepted whenever the sibling name `s`
    merely begins with `last`, and it opens `/…/s`, which is neither the
    project path nor below it.
   */
  lemma WorktreeAdmitsSibling(root: seq<string>, last: string, suffix: string)
    requires Normal(true, root + [last])
    requires suffix != "" && NoSlash(suffix)
    ensures var projectPath := Render(true, root + [last]);
      var sibling := Render(true, root + [last + suffix]);
      && Resolution(WorktreeResolver(projectPath), ["../" + last + suffix]) == Ok(Resolved(OsFile(sibling), None))
      && sibling != projectPath
      && !PathHasPrefix(sibling, projectPath + "/")
  {
    var projectPath := Render(true, root + [last]);
    var sibling := Render(true, root + [last + suffix]);
    SiblingCleans(root, last, suffix);
    var head := if root == [] then "/" else Render(true, root) + "/";
    SiblingSplit(root, last, suffix);
    assert sibling == (head + last) + suffix;
    PrefixOfConcat(head + last, suffix);
    assert sibling[|projectPath|] == suffix[0];
    assert suffix[0] in suffix;
  }

  /** `Clean` resolves `../s` after a clean absolute path to the sibling `s` of its last element. */
  lemma SiblingCleans(root: seq<string>, last: string, suffix: string)
    requires Normal(true, root + [last])
    requires suffix != "" && NoSlash(suffix)
    ensures Join([Render(true, root + [last]), "../" + last + suffix]) == Render(true, root + [last + suffix])
  {
    var s := last + suffix;
    var fname := "../" + last + suffix;
    var projectPath := Render(true, root + [last]);
    ParentStep(root, last);
    SiblingElement(last, suffix);
    RenderRoundTrip(true, root + [last]);
    JoinPair(projectPath, fname);
    CleanAfterRooted(root + [last], fname);
    assert fname == ".." + "/" + s;
    SplitConcat("..", s);
    SplitNoSlash("..");
    SplitNoSlash(s);
    assert Split(fname) == ["..", s];
    var n1 := Normalize(true, root + [last], ["..", s]);
    assert n1 == Normalize(true, root, [s]);
    assert Normalize(true, root, [s]) == Normalize(true, root + [s], []);
    assert n1 == root + [s];
  }

  /** A non-empty, separator-free extension of a kept element is a kept element other than "..". */
  lemma SiblingElement(last: string, suffix: string)
    requires IsKeptElement(last)
    requires suffix != "" && NoSlash(suffix)
    ensures IsKeptElement(last + suffix) && last + suffix != ".."
  {
    var s := last + suffix;
    forall k | 0 <= k < |s| ensures s[k] != '/' {
      if k < |last| {
        assert s[k] == last[k];
        assert last[k] in last;
      } else {
        assert s[k] == suffix[k - |last|];
        assert suffix[k - |last|] in suffix;
      }
    }
    assert s[0] == last[0];
    if |last| == 1 {
      assert last == [last[0]];
      assert s[0] != '.';
    } else {
      assert |s| > 2;
    }
  }

  lemma SiblingSplit(root: seq<string>, last: string, suffix: string)
    ensures var head := if root == [] then "/" else Render(true, root) + "/";
      Render(true, root + [last]) == head + last && Render(true, root + [last + suffix]) == head + last + suffix
  {
    if root == [] {
      assert root + [last] == [last];
      assert root + [last + suffix] == [last + suffix];
    } else {
      JoinSlashConcat(root, [last]);
      JoinSlashConcat(root, [last + suffix]);
    }
  }

  // ---------------------------------------------------------------------------
  // The default resolver

  /** The default resolver's `ext` scheme rejects everything, since its whitelist is empty. */
  lemma DefaultRejectsExternal(projectPath: string, repo: Repo, args: seq<string>)
    requires |args| >= 1 && args[0] == "ext"
    ensures Resolution(NewDefaultResolver(projectPath, repo), args).Err?
  {
    ExternalEmptyRejects(args[1..]);
  }

  /** A scheme other than "rev", "work" and "ext" is reported by name. */
  lemma DefaultUnknownScheme(projectPath: string, repo: Repo, args: seq<string>)
    requires |args| >= 1 && args[0] !in {"rev", "work", "ext"}
    ensures Resolution(NewDefaultResolver(projectPath, repo), args) == Err(ResolverNotFound(args[0]))
  {
  }

  /**
    Every host file the default resolver opens has the project path as a
    string prefix (the `work` sandbox); everything else it opens is a blob.
   */
  lemma DefaultOpensUnderProject(projectPath: string, repo: Repo, args: seq<string>)
    requires Resolution(NewDefaultResolver(projectPath, repo), args).Ok?
    ensures var o := Resolution(NewDefaultResolver(projectPath, repo), args).value.opener;
      o.OsFile? ==> PathHasPrefix(o.path, projectPath)
  {
    var r := NewDefaultResolver(projectPath, repo);
    ResolutionValidatesFirst(r, args);
    var o := Resolution(r, args).value.opener;
    if o.OsFile? {
      var name :| name in r.resolverMap && Admits(r.resolverMap[name], o.path);
      assert name == "work";
    }
  }
}
