# gitan: repository access and resolvers, in Dafny

gitan serves the files of a git repository, of its work tree and of
whitelisted host paths. This project models two of its packages:

- **`repo`** (repo/repo.go) reads a git repository at a revision:
  - `GetTree` lists a directory;
  - `Find` enumerates a directory's descendants with an explicit stack, bounded by `maxDepth`;
  - `GetFileOpener` and `GetBlobOpener` hand out openers for blobs;
  - `GetCommit` describes a commit.
- **`resolver`** (resolver/resolver.go) maps an argument list to something to open.
  - The schemes:
    - `rev` names a blob at a revision;
    - `work` names a work-tree file and is sandboxed by a string-prefix check on the joined path;
    - `ext` names a host file and is checked against a prefix whitelist after `filepath.Clean`.
  - A route dispatches on the first argument.

The go-git object store is a value, `Repo.Repo`, holding:
- the revisions and the commit each one names;
- the commit objects;
- the set of blobs the store holds.

A tree is a finite, acyclic `Repo.Object`. Paths are looked up the way go-git
does it: split at "/", and every non-final piece must name a tree. An opener
only names its target (`BlobReader(hash)` or `OsFile(path)`), so "validation
precedes opening" can be stated outright. Go's `strings.Split`/`Join`/`HasPrefix`
(module `GoStrings`) and the lexical `filepath.Clean`/`Join`/`HasPrefix` with
separator "/" (module `FilePath`) are modelled as functions, with the lemmas
the proofs need.

Structure:
- `Find`, `GetTree`, `gitPathJoin`, the stat collection of `GetCommit` and the
  whitelist scan are loops in the source. They are methods here, each proved
  equal to a specification function (`FindResult`, `TreeAt`, `PathJoin`,
  `CollectStats`, `Whitelisted`).
- The properties are lemmas about those functions.
- The resolvers are a datatype, `Resolver.Resolver`. `Resolver.Resolution`
  states what `Resolve` returns, and the method `Resolver.Resolve` implements it.

Points of the code worth stating:
- `Commit.Files` lists the files `ci.Files()` yields, walking the tree of the commit depth first. Gitlinks (submodule entries) are skipped.
  - `ForEach` stops at the iterator's first error: a file entry whose blob the store cannot load, or a directory entry whose tree cannot load.
  - The list ends there. `GetCommit` still succeeds with the shorter list, because it ignores the error `ForEach` returns (repo/repo.go:287).
- A gitlink's mode 0160000 carries the directory bit that `Find` tests, so `Find` pushes every submodule it reaches. `GetTree` on that path then fails, and so does the whole `Find` call, unless `maxDepth` drops that path before it is listed.
- A failing `NewFileStat` still contributes its nil entry (modelled as `None`) and stops the iteration.
- `GetFileOpener` fails with "obtaining file or directory failed" when the path names a blob the store does not hold. `ci.File` cannot load it, and `tree.Tree` finds no tree there.
- The root path "" is a directory for `GetTree`, which lists the root tree, but not for `GetFileOpener`. There `tree.Tree("")` looks for an entry named "", so the result is "obtaining file or directory failed", not "obtaining directory".
- `RevResolver` calls `r.Repo.Get(path, rev)`, which does not exist in repo/repo.go; it is modelled as `GetFileOpener(path, rev)`.

## Model

| member | source | states |
|---|---|---|
| Repo.GitPathJoin | repo/repo.go:85-94 | the loop returns `PathJoin(elems)`: the non-empty elements, in order, joined by "/" |
| Repo.PathJoinPair | repo/repo.go:85-94 | joining two elements leaves out an empty one and otherwise puts exactly one "/" between them |
| Repo.PathJoinOmitsEmpty | repo/repo.go:88-93 | `gitPathJoin("", x) == x`, `gitPathJoin(x, "") == x`, and all-empty input gives "" |
| Repo.PathJoinAssoc | repo/repo.go:107-113 | joining the Find root with a child path built in two steps equals joining in the other grouping, so a pushed path names the child tree |
| Repo.DecodeMode | repo/repo.go:50-55 | little-endian `binary.Read` of a uint32 fails exactly when fewer than four bytes are given (EOF for none, UnexpectedEOF for one to three) |
| Repo.ModeRoundTrip | repo/repo.go:72-76 | decoding `FileMode.Bytes()` gives back the mode |
| Repo.DecodedModeBytes | repo/repo.go:50-55 | the decoded mode encodes back to exactly the first four bytes read |
| Repo.NewTreeEntry | repo/repo.go:71-83 | never fails; hash and name are copied and the mode comes back unchanged |
| Repo.NewFileStat | repo/repo.go:45-63 | fails exactly when `IsBinary` fails, with that error; otherwise hash, name, mode, size and binary flag of the file |
| Repo.EntryNamed | repo/repo.go:142 | the entry found has the name asked for and is one of the tree's entries; none found means no entry has that name |
| Repo.SubTree | repo/repo.go:141-145 | `tree.Tree(path)` only ever yields a tree |
| Repo.CommitAt | repo/repo.go:128-135 | resolving the revision and loading its commit succeed exactly when the revision is known and its commit is stored |
| Repo.RootAt | repo/repo.go:136-139 | a commit's root tree, when it loads, is a tree |
| Repo.ConvertEntriesExact | repo/repo.go:147-154 | converting the entries never fails and keeps count, order, hashes, names and modes |
| Repo.GetTreeListsChildren | repo/repo.go:127-156 | `GetTree` succeeds exactly when the path is "" or names a subtree; it then lists exactly that tree's immediate entries in order; a revision or commit error is passed through |
| Repo.GetTree | repo/repo.go:127-156 | the loop returns `TreeAt(repo, path, rev)` |
| Repo.FileAt | repo/repo.go:168 | `ci.File(path)` finds a file exactly when the path names a blob the store holds, with that entry's mode, hash, size and binary flag |
| Repo.GetFileOpener | repo/repo.go:159-194 | revision and commit errors are passed on; an opener exactly when the path names a blob the store holds and can classify, reading that blob, with a stat carrying the blob's hash, the path and the entry's mode, size and binary flag; "obtaining directory" exactly when the path names a tree; a not-found error when it names nothing or an unheld blob; the `IsBinary` error otherwise |
| Repo.GetBlobOpener | repo/repo.go:213-219 | succeeds exactly when the store holds the blob, with an opener for that blob |
| Repo.RootPathIsNoDirectory | repo/repo.go:168-176 | for a root without an entry named "", `GetTree("")` succeeds while `GetFileOpener("")` fails with "obtaining file or directory failed", not "obtaining directory" |
| Repo.BlobOpenerMatchesFileOpener | repo/repo.go:182-193 | for every store, the blob opener for a file stat's id succeeds and is the opener `GetFileOpener` returned |
| Repo.WalkYieldsHeldFiles | repo/repo.go:282-287 | every file the `ci.Files()` iterator meets is a blob the store holds, under neither the directory nor the gitlink mode |
| Repo.FilesUntilFailure | repo/repo.go:287-294 | `ForEach` is handed exactly the files the iterator yields before its first failure, in order |
| Repo.CollectStatsExact | repo/repo.go:286-294 | entry i is the stat of file i; a `None` only for a failed stat, and only as the last entry; fewer entries than files only after a failure |
| Repo.CollectFileStats | repo/repo.go:287-294 | the `ForEach` loop returns `CollectStats(files)` |
| Repo.GetCommit | repo/repo.go:273-310 | returns `CommitInfo`: the stats of the files the iterator yields before its first failure; the parent hashes equal the commit's parents (same length and order); succeeds exactly when the revision, the commit and its tree load |
| RepoFind.AppendChildren | repo/repo.go:112-122 | the inner loop pushes the relative paths of the directory-mode entries and appends every entry renamed relative to the Find root |
| RepoFind.ExpandDecreases | repo/repo.go:105-122 | the paths pushed for a listed tree name trees that together are smaller than it, so the loop terminates on a well-formed tree |
| RepoFind.Find | repo/repo.go:96-125 | the stack loop returns `FindResult(repo, path, rev, maxDepth)` |
| RepoFind.FindRunDrop | repo/repo.go:101-104 | with the stack longer than a positive `maxDepth`, the top path is popped without being listed |
| RepoFind.FindRunExpand | repo/repo.go:105-122 | otherwise the top path is listed: the listing's error is the result, or its entries come first, followed by the run from the stack with the pushes |
| RepoFind.EmittedFromRoot | repo/repo.go:113 | entries of the Find root keep their own names (`gitPathJoin("", name) == name`) |
| RepoFind.FindListsRootFirst | repo/repo.go:98-122 | for every `maxDepth`: a `GetTree(path)` error is the result; otherwise the results begin with exactly `GetTree(path)`'s entries in order |
| RepoFind.FindResultsAreListedEntries | repo/repo.go:112-121 | every result copies the hash and mode of an entry of a listed tree, and is named `gitPathJoin(p, entry name)` for the relative path `p` that was listed |
| RepoFind.PushesAreDirectories | repo/repo.go:114-116 | a path is pushed exactly for the entries with the directory bit |
| RepoFind.FindErrorIsListingError | repo/repo.go:107-111 | `Find` fails only with the error of a `GetTree` it called |
| RepoFind.FindDropsAboveBound | repo/repo.go:100-104 | with positive `maxDepth`, everything stacked above position `maxDepth` is dropped unlisted |
| RepoFind.FindDepthOneListsFirstSubdirectory | repo/repo.go:99-106 | with `maxDepth == 1` the first subdirectory of the root is still listed (its entries follow the root's) and the other subdirectories are not |
| RepoFind.FindComplete | repo/repo.go:96-125 | on a well-formed tree whose modes agree with its objects, `Find` succeeds and returns only descendants of the tree, renamed relative to it; with `maxDepth <= 0` it returns all of them |
| RepoFind.FindFailsAtGitlink | repo/repo.go:107-116 | the gitlink mode has the directory bit; when the listed tree's last entry is a gitlink and `maxDepth` does not drop it, `Find` fails with "obtaining file or directory failed" |
| RepoFind.FindBoundedWithinUnbounded | repo/repo.go:101-104 | every entry a bounded `Find` returns is also returned by an unbounded one |
| FilePath.CleanIdempotent | resolver/resolver.go:57 | `filepath.Clean` of a cleaned path changes nothing |
| FilePath.CleanRooted | resolver/resolver.go:57 | `Clean` never returns "", keeps a path absolute or relative, and leaves no ".." in an absolute path |
| Resolver.JoinPair | resolver/resolver.go:39 | `filepath.Join(root, fname)` with a non-empty root cleans `root + "/" + fname` |
| Resolver.ScanWhitelist | resolver/resolver.go:57-67 | the flag is set exactly when some whitelist entry is a string prefix of the cleaned path |
| Resolver.Resolve | resolver/resolver.go:23-90 | the dispatch returns `Resolution(r, args)` |
| Resolver.NewDefaultResolver | resolver/resolver.go:92-104 | a route with exactly the schemes "rev", "work" and "ext" |
| Resolver.ResolutionArity | resolver/resolver.go:23-83 | `RevResolver` fails with its arity error exactly when it is not given two arguments, the work-tree and external resolvers exactly when not given one; a route given none fails with its arity error |
| Resolver.RouteDispatch | resolver/resolver.go:80-90 | a known scheme hands the remaining arguments to its resolver; an unknown one is named in the error |
| Resolver.ResolutionValidatesFirst | resolver/resolver.go:36-74 | a host file is only ever named after the resolver that produced it accepted the path (a sandbox prefix check, or a whitelist match of a clean path); a blob always comes with its stat |
| Resolver.ExternalAcceptsWhitelisted | resolver/resolver.go:55-74 | accepts exactly when a whitelist entry is a string prefix of `Clean(arg)`, then opens the cleaned path (never the raw argument); otherwise names the cleaned path in the error |
| Resolver.ExternalEmptyRejects | resolver/resolver.go:58-67 | an empty whitelist rejects every argument list |
| Resolver.ExternalOpensNoParentElement | resolver/resolver.go:57-70 | an absolute argument is opened at an absolute path with no ".." element left |
| Resolver.WorktreeOpensJoined | resolver/resolver.go:36-49 | accepts exactly when the project path is a string prefix of the joined path, and then opens that joined path; otherwise "invalid path" naming the argument |
| Resolver.WorktreeAdmitsDownward | resolver/resolver.go:39-45 | a name without ".." elements is accepted under a clean absolute project path |
| Resolver.WorktreeRejectsParent | resolver/resolver.go:39-42 | ".." is rejected under a clean absolute project path other than "/" |
| Resolver.WorktreeAdmitsSibling | resolver/resolver.go:39-45 | the check compares strings, not path elements: from `/…/proj`, `../proj2` is accepted and opens `/…/proj2`, which is neither the project path nor below it |
| Resolver.DefaultRejectsExternal | resolver/resolver.go:95-101 | the default resolver's `ext` scheme rejects everything |
| Resolver.DefaultUnknownScheme | resolver/resolver.go:85-89 | any scheme other than "rev", "work" and "ext" is reported by name |
| Resolver.DefaultOpensUnderProject | resolver/resolver.go:92-104 | every host file the default resolver opens has the project path as a string prefix |

## Left out

- The go-git calls (`ResolveRevision`, `CommitObject`, `Tree`, `File`, `Files`, `BlobObject`, `IsBinary`) are foreign library code. The `Repo` value answers them, and `IsBinary` and `Size` are fields of a blob.
- Errors are a datatype without the wrapped causes and message texts of `errors.Wrap`.
- Reading content is I/O and is left out. This covers `GetFile`, `GetBlob`, `Reader`, `ioutil.ReadAll`, `Close` and `os.Open` inside the openers. An opener is a value naming what it would open.
- `NewRepo` and `Close` open and close the repository; they are left out.
- `GetCommitHash` only formats a commit through go-git, so it is left out.
- `Signature.When` is a `time.Time`, and `NewSignature` is a field copy. A signature is its name and e-mail, carried over unchanged.
- `resolver.Main` and the `server` package are I/O and HTTP plumbing.
- The path separator is "/". Windows separators and volume names are not modelled, and `filepath.HasPrefix` is the plain string prefix test it is on Unix.
- `FileStat.Size` is an unbounded `int`, not an `int64`.
- RepoFind.Find: requires a well-formed repository, meaning entry names that are non-empty, free of "/" and distinct within a tree. Termination is proved by the size of the stacked trees. A directory-mode entry named "" makes the Go loop list the same tree forever; a file entry named "" is only emitted. Duplicate names, which go-git resolves to the last entry, are not covered.
- Repo.Walk: follows go-git's file iterator as far as this model can see it. A directory is recognised by its exact mode, gitlinks by theirs, and a walk is cut at an object the store cannot give. The walker's limit of 1024 nested trees is not modelled.
- RepoFind.FindComplete: stated only for trees whose directory bits agree with their objects. This excludes every tree holding a gitlink: its mode has the directory bit, so it is pushed and its listing fails (RepoFind.FindFailsAtGitlink).
- Resolver.ResolutionArity: for a route, only zero arguments is claimed to give the route's arity error. A nested route can also return it for the arguments left after a scheme.
- Repo.GetTree: the "invalid tree entry" return is never taken, because `FileMode.Bytes()` always yields four bytes. `ConvertEntries` keeps the branch, and the method leaves it out.
