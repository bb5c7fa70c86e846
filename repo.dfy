/**
  The repository handle of package `repo` (repo/repo.go) over an abstract,
  finite git object store at fixed revisions.

  The go-git library is not part of this model. Its answers are given by the
  `Repo` value: which commit a revision names, the commit objects, and the
  blobs the store holds. A tree is a finite, acyclic value: an `Object` is a
  blob or a tree whose entries carry a name, a file mode and an object.
 */
module Repo {
  import opened Wrappers
  import opened GoStrings

  type byte = x: int | 0 <= x < 0x100
  type uint32 = x: int | 0 <= x < 0x1_0000_0000

  /** The directory bit of a git file mode: octal 040000, bit 14. */
  const DirBit: uint32 := 0x4000

  /** `mode & 0040000 != 0`. */
  predicate IsDirMode(mode: uint32) {
    (mode / DirBit) % 2 == 1
  }

  // ---------------------------------------------------------------------------
  // The object store, as go-git presents it

  /**
    A git object. `binary` is what `File.IsBinary` reports for a blob: `None`
    when reading the blob to classify it fails.
   */
  datatype Object =
    | Blob(hash: string, size: int, binary: Option<bool>)
    | Tree(hash: string, entries: seq<Entry>)

  /** go-git's `object.TreeEntry`: a name, a file mode and the object it names. */
  datatype Entry = Entry(name: string, mode: uint32, obj: Object)

  /** go-git's `object.File`: a blob reached through a path. */
  datatype File = File(name: string, mode: uint32, hash: string, size: int, binary: Option<bool>)

  /** A commit signature; its time stamp is not part of this model. */
  datatype Signature = Signature(name: string, email: string)

  /** A commit object. `tree` is `None` when its root tree cannot be loaded. */
  datatype CommitObject = CommitObject(
    message: string, author: Signature, committer: Signature,
    parents: seq<string>, tree: Option<Object>)

  /**
    An opened repository: the revisions `ResolveRevision` understands (each
    naming a commit hash), the commit objects by hash, and the hashes of the
    blobs the store holds.
   */
  datatype Repo = Repo(revisions: map<string, string>, commits: map<string, CommitObject>, blobs: set<string>)

  // ---------------------------------------------------------------------------
  // The values repo.go hands out

  datatype TreeEntry = TreeEntry(hash: string, name: string, mode: uint32)

  datatype FileStat = FileStat(id: string, name: string, mode: uint32, size: int, isBinary: bool)

  /** `Files` holds `None` where `NewFileStat` failed: the source appends the nil result before it checks the error. */
  datatype Commit = Commit(
    id: string, message: string, author: Signature, committer: Signature,
    parentHashes: seq<string>, files: seq<Option<FileStat>>)

  /**
    A `FileOpener`, described by what it would open: the content of a blob,
    or a file of the operating system at a path.
   */
  datatype Opener = BlobReader(hash: string) | OsFile(path: string)

  datatype Error =
    | ResolvingRevFailed
    | ObtainingCommitFailed
    | ObtainingTreeFailed
    | ObtainingFileOrDirFailed
    | ObtainingDirectory
    | ObtainingFilesFailed
    | ObtainingBlobFailed
    | InvalidTreeEntry(cause: Error)
    | IsBinaryFailed
    | EOF
    | UnexpectedEOF

  // ---------------------------------------------------------------------------
  // Sizes of trees, for termination

  function Size(o: Object): (n: nat)
    ensures n >= 1
    decreases o, 1
  {
    match o
    case Blob(_, _, _) => 1
    case Tree(_, es) => 1 + EntriesSize(es)
  }

  function EntriesSize(es: seq<Entry>): nat
    decreases es, 0
  {
    if es == [] then 0 else EntriesSize(es[..|es| - 1]) + Size(es[|es| - 1].obj)
  }

  // ---------------------------------------------------------------------------
  // gitPathJoin (repo/repo.go:85-94)

  /** The non-empty elements of `elems`, in order. */
  function NonEmpty(elems: seq<string>): (xs: seq<string>)
    ensures forall i :: 0 <= i < |xs| ==> xs[i] != ""
    ensures |xs| <= |elems|
  {
    if elems == [] then []
    else NonEmpty(elems[..|elems| - 1]) + (if elems[|elems| - 1] != "" then [elems[|elems| - 1]] else [])
  }

  /** What `gitPathJoin(elems...)` returns: the non-empty elements joined by "/". */
  function PathJoin(elems: seq<string>): string {
    JoinSlash(NonEmpty(elems))
  }

  /** `gitPathJoin`: collects the non-empty elements in a loop, then joins them with "/". */
  method GitPathJoin(elems: seq<string>) returns (s: string)
    ensures s == PathJoin(elems)
  {
    var xs: seq<string> := [];
    for i := 0 to |elems|
      invariant xs == NonEmpty(elems[..i])
    {
      assert elems[..i + 1][..i] == elems[..i];
      if elems[i] != "" {
        xs := xs + [elems[i]];
      }
    }
    assert elems[..|elems|] == elems;
    s := JoinSlash(xs);
  }

  /** Joining two elements: an empty one is left out, otherwise they are separated by one "/". */
  lemma PathJoinPair(a: string, b: string)
    ensures PathJoin([a, b]) == if a == "" then b else if b == "" then a else a + "/" + b
  {
    assert [a, b][..1] == [a];
    assert [a][..0] == [];
    assert NonEmpty([a]) == NonEmpty([]) + (if a != "" then [a] else []);
    assert NonEmpty([a, b]) == NonEmpty([a]) + (if b != "" then [b] else []);
    var xs := NonEmpty([a, b]);
    assert xs == (if a != "" then [a] else []) + (if b != "" then [b] else []);
    if a != "" && b != "" {
      assert JoinSlash(xs) == a + "/" + JoinSlash([b]);
    }
  }

  /** `gitPathJoin` omits empty elements: `("", x)` and `(x, "")` give `x`, and all-empty input gives "". */
  lemma {:induction false} PathJoinOmitsEmpty(x: string, elems: seq<string>)
    ensures PathJoin(["", x]) == x && PathJoin([x, ""]) == x
    ensures (forall i :: 0 <= i < |elems| ==> elems[i] == "") ==> PathJoin(elems) == ""
  {
    PathJoinPair("", x);
    PathJoinPair(x, "");
    if forall i :: 0 <= i < |elems| ==> elems[i] == "" {
      AllEmptyNonEmpty(elems);
    }
  }

  lemma {:induction false} AllEmptyNonEmpty(elems: seq<string>)
    requires forall i :: 0 <= i < |elems| ==> elems[i] == ""
    ensures NonEmpty(elems) == []
  {
    if elems != [] {
      AllEmptyNonEmpty(elems[..|elems| - 1]);
    }
  }

  /** Joining is associative, so a path built in two steps is the path built at once. */
  lemma PathJoinAssoc(a: string, b: string, c: string)
    ensures PathJoin([a, PathJoin([b, c])]) == PathJoin([PathJoin([a, b]), c])
  {
    PathJoinPair(b, c);
    PathJoinPair(a, b);
    PathJoinPair(a, PathJoin([b, c]));
    PathJoinPair(PathJoin([a, b]), c);
  }

  // ---------------------------------------------------------------------------
  // File modes (repo/repo.go:50-55, 72-76)

  /** go-git's `FileMode.Bytes()`: the mode as four little-endian bytes. */
  function ModeBytes(m: uint32): (bs: seq<byte>)
    ensures |bs| == 4
  {
    [m % 0x100, (m / 0x100) % 0x100, (m / 0x1_0000) % 0x100, m / 0x100_0000]
  }

  /**
    `binary.Read(buf, binary.LittleEndian, &mode)` on a `uint32`: the first
    four bytes, least significant first. No bytes at all is `io.EOF`, one to
    three bytes `io.ErrUnexpectedEOF`; bytes after the fourth are not read.
   */
  function DecodeMode(bs: seq<byte>): (r: Result<uint32, Error>)
    ensures r.Err? <==> |bs| < 4
    ensures |bs| == 0 ==> r == Err(EOF)
    ensures 0 < |bs| < 4 ==> r == Err(UnexpectedEOF)
  {
    if |bs| == 0 then Err(EOF)
    else if |bs| < 4 then Err(UnexpectedEOF)
    else Ok(bs[0] as int + 0x100 * bs[1] as int + 0x1_0000 * bs[2] as int + 0x100_0000 * bs[3] as int)
  }

  /** Division by the byte place values is determined by a quotient and an in-range remainder. */
  lemma DivModExact(m: int, d: int, q: int, r: int)
    requires d == 0x100 || d == 0x1_0000 || d == 0x100_0000
    requires 0 <= r < d && m == q * d + r
    ensures m / d == q && m % d == r
  {
    if d == 0x100 {
      assert m == q * 0x100 + r;
    } else if d == 0x1_0000 {
      assert m == q * 0x1_0000 + r;
    } else {
      assert m == q * 0x100_0000 + r;
    }
  }

  /** Decoding the bytes of a mode gives back the mode. */
  lemma ModeRoundTrip(m: uint32)
    ensures DecodeMode(ModeBytes(m)) == Ok(m)
  {
    var lo, hi := m % 0x1_0000, m / 0x1_0000;
    DivModExact(m, 0x100, 0x100 * hi + lo / 0x100, lo % 0x100);
    DivModExact(m / 0x100, 0x100, hi, lo / 0x100);
    DivModExact(m, 0x100_0000, hi / 0x100, (hi % 0x100) * 0x1_0000 + lo);
  }

  /** Encoding a decoded mode gives back the four bytes it was read from. */
  lemma DecodedModeBytes(bs: seq<byte>)
    requires |bs| >= 4
    ensures DecodeMode(bs).Ok? && ModeBytes(DecodeMode(bs).value) == bs[..4]
  {
    var m := DecodeMode(bs).value;
    var b0, b1, b2, b3 := bs[0] as int, bs[1] as int, bs[2] as int, bs[3] as int;
    DivModExact(m, 0x100, b1 + 0x100 * b2 + 0x1_0000 * b3, b0);
    DivModExact(b1 + 0x100 * b2 + 0x1_0000 * b3, 0x100, b2 + 0x100 * b3, b1);
    DivModExact(m, 0x1_0000, b2 + 0x100 * b3, b0 + 0x100 * b1);
    DivModExact(b2 + 0x100 * b3, 0x100, b3, b2);
    DivModExact(m, 0x100_0000, b3, b0 + 0x100 * b1 + 0x1_0000 * b2);
  }

  /** `NewTreeEntry`: the entry's hash and name, and its mode decoded from `FileMode.Bytes()`. */
  function NewTreeEntry(te: Entry): (r: Result<TreeEntry, Error>)
    ensures r == Ok(TreeEntry(te.obj.hash, te.name, te.mode))
  {
    ModeRoundTrip(te.mode);
    match DecodeMode(ModeBytes(te.mode))
    case Err(e) => Err(e)
    case Ok(mode) => Ok(TreeEntry(te.obj.hash, te.name, mode))
  }

  /**
    `NewFileStat`: fails with the error of `IsBinary` when the blob cannot be
    classified; otherwise the file's hash, name, size and binary flag, and its
    mode decoded from `FileMode.Bytes()`.
   */
  function NewFileStat(f: File): (r: Result<FileStat, Error>)
    ensures r.Err? <==> f.binary.None?
    ensures r.Err? ==> r.error == IsBinaryFailed
    ensures r.Ok? ==> r.value == FileStat(f.hash, f.name, f.mode, f.size, f.binary.value)
  {
    ModeRoundTrip(f.mode);
    match f.binary
    case None => Err(IsBinaryFailed)
    case Some(isBinary) =>
      match DecodeMode(ModeBytes(f.mode))
      case Err(e) => Err(e)
      case Ok(mode) => Ok(FileStat(f.hash, f.name, mode, f.size, isBinary))
  }

  // ---------------------------------------------------------------------------
  // Path lookup in a tree, as go-git does it

  /** `Tree.entry(name)`: go-git indexes the entries in a map, so a later entry of the same name wins. */
  function EntryNamed(es: seq<Entry>, name: string): (r: Option<Entry>)
    ensures r.Some? ==> r.value in es && r.value.name == name
    ensures r.None? ==> forall i :: 0 <= i < |es| ==> es[i].name != name
  {
    if es == [] then None
    else if es[|es| - 1].name == name then Some(es[|es| - 1])
    else EntryNamed(es[..|es| - 1], name)
  }

  /**
    `Tree.FindEntry` on the pieces of a path split at "/": every piece but the
    last must name a tree, the last names the entry.
   */
  function FindEntry(es: seq<Entry>, segs: seq<string>): Option<Entry>
    requires |segs| >= 1
    decreases |segs|
  {
    var e := EntryNamed(es, segs[0]);
    if |segs| == 1 then e
    else if e.Some? && e.value.obj.Tree? then FindEntry(e.value.obj.entries, segs[1..])
    else None
  }

  /** The object a non-empty path names below `root`, if any. */
  function Lookup(root: Object, path: string): Option<Object> {
    if root.Tree? then
      var e := FindEntry(root.entries, Split(path));
      if e.Some? then Some(e.value.obj) else None
    else None
  }

  /** `Tree.Tree(path)`: the subtree at `path`; fails unless the path names a tree. Even "" fails. */
  function SubTree(root: Object, path: string): (r: Option<Object>)
    ensures r.Some? ==> r.value.Tree?
  {
    var o := Lookup(root, path);
    if o.Some? && o.value.Tree? then o else None
  }

  /**
    `Tree.File(path)`: finds the entry at `path`, then loads its object as a
    blob from the store (`GetBlob`). It fails unless the path names a blob the
    store holds; a gitlink names a commit, which is no blob of the store.
   */
  function FileAt(root: Object, path: string, blobs: set<string>): (r: Option<File>)
    ensures r.Some? <==> Lookup(root, path).Some? && Lookup(root, path).value.Blob? && Lookup(root, path).value.hash in blobs
    ensures r.Some? ==> var o := Lookup(root, path).value;
      r.value == File(path, FindEntry(root.entries, Split(path)).value.mode, o.hash, o.size, o.binary)
  {
    if root.Tree? then
      match FindEntry(root.entries, Split(path))
      case Some(Entry(_, mode, Blob(hash, size, binary))) =>
        if hash in blobs then Some(File(path, mode, hash, size, binary)) else None
      case _ => None
    else None
  }

  // ---------------------------------------------------------------------------
  // Revisions and commits

  /** `ResolveRevision` followed by `CommitObject`. */
  function CommitAt(repo: Repo, rev: string): (r: Result<CommitObject, Error>)
    ensures r.Ok? <==> rev in repo.revisions && repo.revisions[rev] in repo.commits
  {
    if rev !in repo.revisions then Err(ResolvingRevFailed)
    else if repo.revisions[rev] !in repo.commits then Err(ObtainingCommitFailed)
    else Ok(repo.commits[repo.revisions[rev]])
  }

  /** `Commit.Tree()`: succeeds when the commit's root tree loads as a tree. */
  function RootTree(c: CommitObject): (r: Result<Object, Error>)
    ensures r.Ok? ==> r.value.Tree?
  {
    if c.tree.Some? && c.tree.value.Tree? then Ok(c.tree.value) else Err(ObtainingTreeFailed)
  }

  /** The root tree of the commit a revision names. */
  function RootAt(repo: Repo, rev: string): (r: Result<Object, Error>)
    ensures r.Ok? ==> r.value.Tree?
  {
    match CommitAt(repo, rev)
    case Err(e) => Err(e)
    case Ok(c) => RootTree(c)
  }

  // ---------------------------------------------------------------------------
  // GetTree (repo/repo.go:127-156)

  /** `NewTreeEntry` applied to each entry in order; the first failure is the result. */
  function ConvertEntries(es: seq<Entry>): Result<seq<TreeEntry>, Error> {
    if es == [] then Ok([])
    else
      match ConvertEntries(es[..|es| - 1])
      case Err(e) => Err(e)
      case Ok(xs) =>
        match NewTreeEntry(es[|es| - 1])
        case Err(e) => Err(InvalidTreeEntry(e))
        case Ok(t) => Ok(xs + [t])
  }

  /** What `GetTree(path, rev)` returns: the entries of the root tree for "", of the subtree at `path` otherwise. */
  function TreeAt(repo: Repo, path: string, rev: string): Result<seq<TreeEntry>, Error> {
    match CommitAt(repo, rev)
    case Err(e) => Err(e)
    case Ok(c) =>
      match RootTree(c)
      case Err(_) => Err(ObtainingTreeFailed)
      case Ok(root) =>
        var target := if path == "" then Some(root) else SubTree(root, path);
        if target.None? then Err(ObtainingFileOrDirFailed)
        else ConvertEntries(target.value.entries)
  }

  /** The tree `GetTree(path, rev)` lists, when there is one. */
  function DirAt(repo: Repo, path: string, rev: string): Option<Object> {
    match RootAt(repo, rev)
    case Err(_) => None
    case Ok(root) => if path == "" then Some(root) else SubTree(root, path)
  }

  /** Each entry converts to its hash, name and mode, unchanged. */
  lemma {:induction false} ConvertEntriesExact(es: seq<Entry>)
    ensures ConvertEntries(es).Ok?
    ensures |ConvertEntries(es).value| == |es|
    ensures forall i :: 0 <= i < |es| ==>
      ConvertEntries(es).value[i] == TreeEntry(es[i].obj.hash, es[i].name, es[i].mode)
  {
    if es != [] {
      ConvertEntriesExact(es[..|es| - 1]);
    }
  }

  /**
    `GetTree` lists exactly the immediate children of the tree at `path`, in
    order and without recursion; it fails exactly when the revision, the
    commit or its root tree cannot be loaded or `path` is neither "" nor the
    path of a subtree.
   */
  lemma GetTreeListsChildren(repo: Repo, path: string, rev: string)
    ensures TreeAt(repo, path, rev).Ok? <==> DirAt(repo, path, rev).Some?
    ensures TreeAt(repo, path, rev).Ok? ==>
      var es := DirAt(repo, path, rev).value.entries;
      var tes := TreeAt(repo, path, rev).value;
      |tes| == |es| && forall i :: 0 <= i < |es| ==> tes[i] == TreeEntry(es[i].obj.hash, es[i].name, es[i].mode)
    ensures CommitAt(repo, rev).Err? ==> TreeAt(repo, path, rev) == Err(CommitAt(repo, rev).error)
  {
    var d := DirAt(repo, path, rev);
    if d.Some? {
      ConvertEntriesExact(d.value.entries);
    }
  }

  /** `GetTree`: resolves the revision, loads the commit and its tree, descends to `path`, and converts the entries in a loop. */
  method GetTree(repo: Repo, path: string, rev: string) returns (r: Result<seq<TreeEntry>, Error>)
    ensures r == TreeAt(repo, path, rev)
  {
    var ci := CommitAt(repo, rev);
    if ci.Err? {
      return Err(ci.error);
    }
    var tree := RootTree(ci.value);
    if tree.Err? {
      return Err(ObtainingTreeFailed);
    }
    var targetTree := tree.value;
    if path != "" {
      var sub := SubTree(tree.value, path);
      if sub.None? {
        return Err(ObtainingFileOrDirFailed);
      }
      targetTree := sub.value;
    }
    var es := targetTree.entries;
    var results: seq<TreeEntry> := [];
    for i := 0 to |es|
      invariant ConvertEntries(es[..i]) == Ok(results)
    {
      assert es[..i + 1][..i] == es[..i];
      // NewTreeEntry never fails (FileMode.Bytes() always yields four bytes),
      // so the source's "invalid tree entry" return is never taken.
      var result := NewTreeEntry(es[i]);
      results := results + [result.value];
    }
    assert es[..|es|] == es;
    return Ok(results);
  }

  // ---------------------------------------------------------------------------
  // GetFileOpener (repo/repo.go:159-194) and GetBlobOpener (repo/repo.go:213-219)

  /** `Commit.File(path)`: loads the root tree, then the file at `path`. */
  function CommitFile(repo: Repo, c: CommitObject, path: string): Option<File> {
    match RootTree(c)
    case Err(_) => None
    case Ok(root) => FileAt(root, path, repo.blobs)
  }

  /**
    `GetFileOpener(path, rev)`. Revision and commit errors are passed on.
    Once the root tree loads: an opener exactly when `path` names a blob the
    store holds and can classify, reading that blob, with a stat of the
    blob's hash, the path, the entry's mode, the size and the binary flag;
    "obtaining directory" exactly when `path` names a tree; a not-found
    error when it names nothing or a blob the store does not hold; the
    `IsBinary` error when the blob cannot be classified.
   */
  function GetFileOpener(repo: Repo, path: string, rev: string): (r: Result<(Opener, FileStat), Error>)
    ensures CommitAt(repo, rev).Err? ==> r == Err(CommitAt(repo, rev).error)
    ensures CommitAt(repo, rev).Ok? && RootAt(repo, rev).Err? ==> r == Err(ObtainingTreeFailed)
    ensures RootAt(repo, rev).Ok? ==>
      var root := RootAt(repo, rev).value;
      var o := Lookup(root, path);
      && (r.Ok? <==> o.Some? && o.value.Blob? && o.value.hash in repo.blobs && o.value.binary.Some?)
      && (r.Ok? ==> r.value.0 == BlobReader(o.value.hash)
                    && r.value.1 == FileStat(o.value.hash, path, FindEntry(root.entries, Split(path)).value.mode,
                                             o.value.size, o.value.binary.value))
      && (r == Err(ObtainingDirectory) <==> o.Some? && o.value.Tree?)
      && (o.None? || (o.value.Blob? && o.value.hash !in repo.blobs) ==> r == Err(ObtainingFileOrDirFailed))
      && (o.Some? && o.value.Blob? && o.value.hash in repo.blobs && o.value.binary.None? ==> r == Err(IsBinaryFailed))
  {
    match CommitAt(repo, rev)
    case Err(e) => Err(e)
    case Ok(ci) =>
      match CommitFile(repo, ci, path)
      case None =>
        (match RootTree(ci)
         case Err(_) => Err(ObtainingTreeFailed)
         case Ok(tree) => if SubTree(tree, path).Some? then Err(ObtainingDirectory) else Err(ObtainingFileOrDirFailed))
      case Some(file) =>
        match NewFileStat(file)
        case Err(e) => Err(e)
        case Ok(stat) => Ok((BlobReader(file.hash), stat))
  }

  /** `GetBlobOpener(hash)`: an opener for any blob the store holds. */
  function GetBlobOpener(repo: Repo, hash: string): (r: Result<Opener, Error>)
    ensures r.Ok? <==> hash in repo.blobs
    ensures r.Ok? ==> r.value == BlobReader(hash)
  {
    if hash in repo.blobs then Ok(BlobReader(hash)) else Err(ObtainingBlobFailed)
  }

  /**
    The root path: `GetTree("")` lists the root tree, but `GetFileOpener("")`
    does not report a directory. `tree.Tree("")` looks for an entry named "",
    and a git tree has none, so the result is "obtaining file or directory
    failed".
   */
  lemma RootPathIsNoDirectory(repo: Repo, rev: string)
    requires RootAt(repo, rev).Ok?
    requires EntryNamed(RootAt(repo, rev).value.entries, "").None?
    ensures TreeAt(repo, "", rev).Ok?
    ensures GetFileOpener(repo, "", rev) == Err(ObtainingFileOrDirFailed)
  {
    ConvertEntriesExact(RootAt(repo, rev).value.entries);
    assert Split("") == [""];
  }

  /**
    Blob round trip: the opener `GetFileOpener` returns for a path is the one
    `GetBlobOpener` returns for the hash in the file's stat.
   */
  lemma BlobOpenerMatchesFileOpener(repo: Repo, path: string, rev: string)
    requires GetFileOpener(repo, path, rev).Ok?
    ensures GetBlobOpener(repo, GetFileOpener(repo, path, rev).value.1.id) == Ok(GetFileOpener(repo, path, rev).value.0)
  {
  }

  // ---------------------------------------------------------------------------
  // GetCommit (repo/repo.go:273-310)

  /** The file mode of a gitlink (a submodule entry): octal 0160000. */
  const SubmoduleMode: uint32 := 0xE000

  /**
    What the file iterator of `Commit.Files()` meets below a tree, depth
    first in entry order, each file named by its full path. Entries whose
    mode is exactly the directory mode are descended into and gitlinks are
    skipped. `None` marks where the iterator fails: a directory entry whose
    object is not a tree, or a file entry whose object is not a blob the
    store holds.
   */
  function Walk(es: seq<Entry>, dir: string, blobs: set<string>): seq<Option<File>>
    decreases EntriesSize(es), 1
  {
    if es == [] then []
    else Walk(es[..|es| - 1], dir, blobs) + EntryWalk(es[|es| - 1], dir, blobs)
  }

  function EntryWalk(e: Entry, dir: string, blobs: set<string>): seq<Option<File>>
    decreases Size(e.obj), 0
  {
    var path := PathJoin([dir, e.name]);
    if e.mode == DirBit then
      (if e.obj.Tree? then Walk(e.obj.entries, path, blobs) else [None])
    else if e.mode == SubmoduleMode then []
    else if e.obj.Blob? && e.obj.hash in blobs then [Some(File(path, e.mode, e.obj.hash, e.obj.size, e.obj.binary))]
    else [None]
  }

  /**
    The iterator yields only files of the store: every file met is a blob
    the store holds, under neither the directory nor the gitlink mode.
   */
  lemma {:induction false} WalkYieldsHeldFiles(es: seq<Entry>, dir: string, blobs: set<string>)
    ensures forall x :: x in Walk(es, dir, blobs) && x.Some? ==>
      x.value.hash in blobs && x.value.mode != DirBit && x.value.mode != SubmoduleMode
    decreases EntriesSize(es), 1
  {
    if es != [] {
      WalkYieldsHeldFiles(es[..|es| - 1], dir, blobs);
      EntryWalkYieldsHeldFiles(es[|es| - 1], dir, blobs);
    }
  }

  lemma {:induction false} EntryWalkYieldsHeldFiles(e: Entry, dir: string, blobs: set<string>)
    ensures forall x :: x in EntryWalk(e, dir, blobs) && x.Some? ==>
      x.value.hash in blobs && x.value.mode != DirBit && x.value.mode != SubmoduleMode
    decreases Size(e.obj), 0
  {
    if e.mode == DirBit && e.obj.Tree? {
      WalkYieldsHeldFiles(e.obj.entries, PathJoin([dir, e.name]), blobs);
    }
  }

  /**
    The files `ForEach` hands to its callback: those the iterator yields
    before its first failure, after which the iteration ends.
   */
  function FilesUntilFailure(walk: seq<Option<File>>): (r: seq<File>)
    ensures |r| <= |walk|
    ensures forall i :: 0 <= i < |r| ==> walk[i] == Some(r[i])
    ensures |r| < |walk| ==> walk[|r|].None?
  {
    if walk == [] || walk[0].None? then [] else [walk[0].value] + FilesUntilFailure(walk[1..])
  }

  /**
    The stats `fi.ForEach` collects: `NewFileStat` of each file in turn,
    stopping after the first failure, whose nil result is still appended.
   */
  function CollectStats(files: seq<File>): (r: seq<Option<FileStat>>)
    ensures |r| <= |files|
  {
    if files == [] then []
    else
      match NewFileStat(files[0])
      case Err(_) => [None]
      case Ok(st) => [Some(st)] + CollectStats(files[1..])
  }

  /**
    Entry `i` of the collected stats is the stat of file `i`; a `None` stands
    only for a failed stat and only as the last entry; the list is shorter
    than the files only after a failure.
   */
  lemma {:induction false} CollectStatsExact(files: seq<File>)
    ensures var r := CollectStats(files);
      && (forall i :: 0 <= i < |r| ==>
            if r[i].Some? then NewFileStat(files[i]) == Ok(r[i].value)
            else NewFileStat(files[i]).Err? && i == |r| - 1)
      && (|r| < |files| ==> |r| > 0 && r[|r| - 1].None?)
  {
    if files != [] && NewFileStat(files[0]).Ok? {
      CollectStatsExact(files[1..]);
      var r := CollectStats(files);
      forall i | 0 <= i < |r|
        ensures if r[i].Some? then NewFileStat(files[i]) == Ok(r[i].value)
                else NewFileStat(files[i]).Err? && i == |r| - 1
      {
        if i > 0 {
          assert r[i] == CollectStats(files[1..])[i - 1] && files[i] == files[1..][i - 1];
        }
      }
    }
  }

  /** `fi.ForEach` with the callback of `GetCommit`: the iteration stops at the callback's first error. */
  method CollectFileStats(fi: seq<File>) returns (files: seq<Option<FileStat>>)
    ensures files == CollectStats(fi)
  {
    files := [];
    var i := 0;
    while i < |fi|
      invariant 0 <= i <= |fi|
      invariant CollectStats(fi) == files + CollectStats(fi[i..])
    {
      var file := NewFileStat(fi[i]);
      CollectStatsFrom(fi, i);
      if file.Err? {
        files := files + [None];
        return;
      }
      files := files + [Some(file.value)];
      i := i + 1;
    }
  }

  /** One step of `ForEach` at file `i`: its stat, then the rest unless it failed. */
  lemma CollectStatsFrom(fi: seq<File>, i: int)
    requires 0 <= i < |fi|
    ensures NewFileStat(fi[i]).Err? ==> CollectStats(fi[i..]) == [None]
    ensures NewFileStat(fi[i]).Ok? ==> CollectStats(fi[i..]) == [Some(NewFileStat(fi[i]).value)] + CollectStats(fi[i + 1..])
  {
    assert fi[i..][0] == fi[i] && fi[i..][1..] == fi[i + 1..];
  }

  /**
    What `GetCommit(rev)` returns. `ci.Files()` fails exactly when `ci.Tree()`
    does; the iterator's own failure only ends the file list, because the
    error `ForEach` returns is ignored.
   */
  function CommitInfo(repo: Repo, rev: string): Result<Commit, Error> {
    match CommitAt(repo, rev)
    case Err(e) => Err(e)
    case Ok(ci) =>
      match RootTree(ci)
      case Err(_) => Err(ObtainingFilesFailed)
      case Ok(tree) =>
        Ok(Commit(repo.revisions[rev], ci.message, ci.author, ci.committer, ci.parents,
                  CollectStats(FilesUntilFailure(Walk(tree.entries, "", repo.blobs)))))
  }

  /**
    `GetCommit`: collects the file stats and copies the parent hashes in
    loops. The parent list keeps the commit's length and order, and an error
    from a file stat does not fail the call.
   */
  method GetCommit(repo: Repo, rev: string) returns (r: Result<Commit, Error>)
    ensures r == CommitInfo(repo, rev)
    ensures r.Ok? ==> r.value.parentHashes == CommitAt(repo, rev).value.parents
    ensures r.Ok? <==> RootAt(repo, rev).Ok?
  {
    if rev !in repo.revisions {
      return Err(ResolvingRevFailed);
    }
    var h := repo.revisions[rev];
    if h !in repo.commits {
      return Err(ObtainingCommitFailed);
    }
    var ci := repo.commits[h];
    var tree := RootTree(ci);
    if tree.Err? {
      return Err(ObtainingFilesFailed);
    }
    var files := CollectFileStats(FilesUntilFailure(Walk(tree.value.entries, "", repo.blobs)));
    var parentHashes: seq<string> := [];
    for j := 0 to |ci.parents|
      invariant parentHashes == ci.parents[..j]
    {
      parentHashes := parentHashes + [ci.parents[j]];
    }
    assert ci.parents[..|ci.parents|] == ci.parents;
    return Ok(Commit(h, ci.message, ci.author, ci.committer, parentHashes, files));
  }
}
