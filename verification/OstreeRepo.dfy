/** Reading a file out of an OSTree repository: from a commit down the directory trees to the content object. */
module OstreeRepo {
  import opened TextLines
  import opened GVariant
  import opened Ostree

  datatype Object = CommitObject(hash: string) | DirtreeObject(hash: string) | BareFile(hash: string) |
      ArchivedFile(hash: string)

  /** The object store; `inflate` stands for raw DEFLATE decompression. */
  datatype Repo = Repo(objects: map<Object, Bytes>, inflate: Bytes -> Option<Bytes>)

  datatype ReadError =
    | MissingCommit | BadCommit(error: ParseError) | MissingDirtree(hash: string) | BadDirtree(error: ParseError)
    | NoDirectory(name: Bytes) | NoFile(name: Bytes) | MissingContent(hash: string) | BadContent(hash: string)
  datatype Result<T> = Success(value: T) | Failure(error: ReadError)

  const SLASH: Byte := 47

  function TrimLeft(p: Bytes): Bytes
  {
    if p != [] && p[0] == SLASH then TrimLeft(p[1..]) else p
  }

  function TrimRight(p: Bytes): Bytes
  {
    if p != [] && p[|p| - 1] == SLASH then TrimRight(p[..|p| - 1]) else p
  }

  function PathParts(path: Bytes): (parts: seq<Bytes>)
    ensures parts != []
  {
    Split(TrimRight(TrimLeft(path)), SLASH)
  }

  // ---- Which names a path means ----

  function Slashes(n: nat): (s: Bytes)
    ensures |s| == n && forall i | 0 <= i < n :: s[i] == 47
  {
    seq(n, _ => 47)
  }

  /** Neither empty nor with a slash in it. */
  predicate IsName(name: Bytes)
  {
    name != [] && (47 as Byte) !in name
  }

  lemma {:induction false} TrimLeftOf(n: nat, core: Bytes)
    requires core != [] ==> core[0] != 47
    ensures TrimLeft(Slashes(n) + core) == core
  {
    if n == 0 {
      assert Slashes(0) + core == core;
    } else {
      var p := Slashes(n) + core;
      assert p[0] == 47 && p[1..] == Slashes(n - 1) + core;
      TrimLeftOf(n - 1, core);
    }
  }

  lemma {:induction false} TrimRightOf(n: nat, core: Bytes)
    requires core != [] ==> core[|core| - 1] != 47
    ensures TrimRight(core + Slashes(n)) == core
  {
    if n == 0 {
      assert core + Slashes(0) == core;
    } else {
      var p := core + Slashes(n);
      assert p[|p| - 1] == 47 && p[..|p| - 1] == core + Slashes(n - 1);
      TrimRightOf(n - 1, core);
    }
  }

  lemma {:induction false} JoinEnds(names: seq<Bytes>)
    requires names != [] && forall n | n in names :: IsName(n)
    ensures var p := Join(names, 47); p != [] && p[0] != 47 && p[|p| - 1] != 47
  {
    assert IsName(names[0]);
    JoinCons(names[0], names[1..], 47);
    assert names == [names[0]] + names[1..];
    if names[1..] != [] {
      JoinEnds(names[1..]);
    }
  }

  /** A path means the names between its slashes, however many slashes stand before the first and behind the last. */
  lemma PartsAreNames(before: nat, names: seq<Bytes>, after: nat)
    requires names != [] && forall n | n in names :: IsName(n)
    ensures PathParts(Slashes(before) + Join(names, 47) + Slashes(after)) == names
  {
    hide Split, Join, TrimLeft, TrimRight;
    var core := Join(names, 47);
    JoinEnds(names);
    var rest := core + Slashes(after);
    assert rest[0] == core[0];
    TrimLeftOf(before, rest);
    assert Slashes(before) + core + Slashes(after) == Slashes(before) + rest;
    TrimRightOf(after, core);
    SplitOfJoin(names, 47);
  }

  function BigEndian32(b: Bytes): nat
    requires |b| == 4
  {
    0x100_0000 * b[0] as nat + 0x1_0000 * b[1] as nat + 0x100 * b[2] as nat + b[3] as nat
  }

  /** Bare content, or archived content: header size, 4 bytes of padding, header, compressed data. */
  function ReadContent(repo: Repo, hash: string): Result<Bytes>
  {
    if BareFile(hash) in repo.objects then Success(repo.objects[BareFile(hash)])
    else if ArchivedFile(hash) !in repo.objects then Failure(MissingContent(hash))
    else
      var raw := repo.objects[ArchivedFile(hash)];
      if |raw| < 8 then Failure(BadContent(hash))
      else
        var header := BigEndian32(raw[..4]);
        if header == 0 || 8 + header > |raw| then Failure(BadContent(hash))
        else
          match repo.inflate(raw[8 + header..])
          case Some(content) => Success(content)
          case None => Failure(BadContent(hash))
  }

  /** One directory level: the child of this name in the directory tree object `hash`. */
  function ChildIn(repo: Repo, hash: string, name: Bytes): Result<Child>
  {
    if DirtreeObject(hash) !in repo.objects then Failure(MissingDirtree(hash))
    else
      match DirtreeChild(repo.objects[DirtreeObject(hash)], name)
      case Err(e) => Failure(BadDirtree(e))
      case Ok(child) => Success(child)
  }

  /** The loop over the directories of a path. */
  function Descend(repo: Repo, hash: string, dirs: seq<Bytes>): Result<string>
    decreases |dirs|
  {
    if dirs == [] then Success(hash)
    else
      match ChildIn(repo, hash, dirs[0])
      case Failure(e) => Failure(e)
      case Success(child) =>
        if child.subdir == "" then Failure(NoDirectory(dirs[0])) else Descend(repo, child.subdir, dirs[1..])
  }

  function FileIn(repo: Repo, hash: string, name: Bytes): Result<Bytes>
  {
    match ChildIn(repo, hash, name)
    case Failure(e) => Failure(e)
    case Success(child) => if child.file == "" then Failure(NoFile(name)) else ReadContent(repo, child.file)
  }

  function RootOf(repo: Repo, commit: string): Result<string>
  {
    if CommitObject(commit) !in repo.objects then Failure(MissingCommit)
    else
      match RootDirtreeHash(repo.objects[CommitObject(commit)])
      case Err(e) => Failure(BadCommit(e))
      case Ok(root) => Success(root)
  }

  /** What `ReadFile` computes. */
  function FileAt(repo: Repo, commit: string, parts: seq<Bytes>): Result<Bytes>
    requires parts != []
  {
    match RootOf(repo, commit)
    case Failure(e) => Failure(e)
    case Success(root) =>
      match Descend(repo, root, parts[..|parts| - 1])
      case Failure(e) => Failure(e)
      case Success(hash) => FileIn(repo, hash, parts[|parts| - 1])
  }

  method ReadChild(repo: Repo, hash: string, name: Bytes) returns (child: Result<Child>)
    ensures child == ChildIn(repo, hash, name)
  {
    if DirtreeObject(hash) !in repo.objects {
      return Failure(MissingDirtree(hash));
    }
    var parsed := LookupDirtree(repo.objects[DirtreeObject(hash)], name);
    if parsed.Err? {
      return Failure(BadDirtree(parsed.error));
    }
    return Success(parsed.value);
  }

  method Walk(repo: Repo, root: string, dirs: seq<Bytes>) returns (r: Result<string>)
    ensures r == Descend(repo, root, dirs)
  {
    var hash := root;
    for i := 0 to |dirs|
      invariant Descend(repo, root, dirs) == Descend(repo, hash, dirs[i..])
    {
      assert dirs[i..][0] == dirs[i] && dirs[i..][1..] == dirs[i + 1..];
      var child := ReadChild(repo, hash, dirs[i]);
      if child.Failure? {
        return Failure(child.error);
      }
      if child.value.subdir == "" {
        return Failure(NoDirectory(dirs[i]));
      }
      hash := child.value.subdir;
    }
    return Success(hash);
  }

  method ReadFile(repo: Repo, commit: string, path: Bytes) returns (r: Result<Bytes>)
    ensures r == FileAt(repo, commit, PathParts(path))
  {
    if CommitObject(commit) !in repo.objects {
      return Failure(MissingCommit);
    }
    var root := RootDirtreeHash(repo.objects[CommitObject(commit)]);
    if root.Err? {
      return Failure(BadCommit(root.error));
    }
    var parts := PathParts(path);
    var hash := Walk(repo, root.value, parts[..|parts| - 1]);
    if hash.Failure? {
      return Failure(hash.error);
    }
    var name := parts[|parts| - 1];
    var child := ReadChild(repo, hash.value, name);
    if child.Failure? {
      return Failure(child.error);
    }
    if child.value.file == "" {
      return Failure(NoFile(name));
    }
    return ReadContent(repo, child.value.file);
  }

  // ---- What a repository is supposed to hold ----

  datatype FileNode = FileNode(name: Bytes, hash: Bytes, content: Bytes)
  datatype DirNode = DirNode(name: Bytes, hash: Bytes, meta: Bytes, tree: Tree)
  datatype Tree = Tree(files: seq<FileNode>, dirs: seq<DirNode>)

  function FileEntries(files: seq<FileNode>): (es: seq<Entry>)
    ensures |es| == |files|
  {
    seq(|files|, i requires 0 <= i < |files| => Entry(files[i].name, files[i].hash, []))
  }

  function DirEntries(dirs: seq<DirNode>): (es: seq<Entry>)
    ensures |es| == |dirs|
  {
    seq(|dirs|, i requires 0 <= i < |dirs| => Entry(dirs[i].name, dirs[i].hash, dirs[i].meta))
  }

  predicate DistinctNames(es: seq<Entry>)
  {
    forall i, j | 0 <= i < j < |es| :: es[i].name != es[j].name
  }

  /** Every name of a directory is used once, by a file or by a subdirectory, and fits the encoding. */
  predicate ValidDirectory(t: Tree)
  {
    var files, dirs := FileEntries(t.files), DirEntries(t.dirs);
    && (forall e | e in files :: ValidEntry(e)) && (forall e | e in dirs :: ValidEntry(e))
    && DistinctNames(files) && DistinctNames(dirs)
    && (forall e, g | e in files && g in dirs :: e.name != g.name)
    && |EncodeDirtree(files, dirs)| <= 0xffff_ffff
  }

  /** The content object of a file, bare or archived. */
  predicate HoldsContent(repo: Repo, f: FileNode)
  {
    var hash := Hex(f.hash);
    if BareFile(hash) in repo.objects then repo.objects[BareFile(hash)] == f.content
    else
      && ArchivedFile(hash) in repo.objects
      && var raw := repo.objects[ArchivedFile(hash)];
         && |raw| >= 8
         && var header :=
              0x100_0000 * raw[0] as nat + 0x1_0000 * raw[1] as nat + 0x100 * raw[2] as nat + raw[3] as nat;
            0 < header <= |raw| - 8 && repo.inflate(raw[8 + header..]) == Some(f.content)
  }

  /** The repository holds this tree under this checksum. */
  ghost predicate Holds(repo: Repo, t: Tree, hash: Bytes)
    decreases t
  {
    && ValidDirectory(t)
    && DirtreeObject(Hex(hash)) in repo.objects
    && repo.objects[DirtreeObject(Hex(hash))] == EncodeDirtree(FileEntries(t.files), DirEntries(t.dirs))
    && (forall f | f in t.files :: HoldsContent(repo, f))
    && (forall d | d in t.dirs :: Holds(repo, d.tree, d.hash))
  }

  ghost predicate IsFile(t: Tree, parts: seq<Bytes>, content: Bytes)
    decreases |parts|
  {
    if parts == [] then false
    else if |parts| == 1 then exists f | f in t.files :: f.name == parts[0] && f.content == content
    else exists d | d in t.dirs :: d.name == parts[0] && IsFile(d.tree, parts[1..], content)
  }

  lemma ChildOfHeld(repo: Repo, t: Tree, hash: Bytes, name: Bytes)
    requires Holds(repo, t, hash)
    ensures ChildIn(repo, Hex(hash), name) ==
              Success(Chosen(FirstHash(FileEntries(t.files), name), FirstHash(DirEntries(t.dirs), name)))
  {
    ChildOfEncoded(FileEntries(t.files), DirEntries(t.dirs), name);
  }

  lemma HashOfFile(t: Tree, f: FileNode)
    requires ValidDirectory(t) && f in t.files
    ensures FirstHash(FileEntries(t.files), f.name) == Hex(f.hash) != ""
  {
    var es := FileEntries(t.files);
    FirstHashIsTheHash(es, f.name);
    var i :| 0 <= i < |t.files| && t.files[i] == f;
    assert es[i] in es;
  }

  lemma HashOfDir(t: Tree, d: DirNode)
    requires ValidDirectory(t) && d in t.dirs
    ensures FirstHash(DirEntries(t.dirs), d.name) == Hex(d.hash) != ""
    ensures FirstHash(FileEntries(t.files), d.name) == ""
  {
    var es := DirEntries(t.dirs);
    FirstHashIsTheHash(es, d.name);
    var i :| 0 <= i < |t.dirs| && t.dirs[i] == d;
    assert es[i] in es;
    FirstHashIsTheHash(FileEntries(t.files), d.name);
  }

  lemma NoSuchFile(t: Tree, name: Bytes)
    requires ValidDirectory(t) && forall f | f in t.files :: f.name != name
    ensures FirstHash(FileEntries(t.files), name) == ""
  {
    FirstHashIsTheHash(FileEntries(t.files), name);
  }

  lemma NoSuchDir(t: Tree, name: Bytes)
    requires ValidDirectory(t) && forall d | d in t.dirs :: d.name != name
    ensures FirstHash(DirEntries(t.dirs), name) == ""
  {
    FirstHashIsTheHash(DirEntries(t.dirs), name);
  }

  function BelowRoot(repo: Repo, hash: string, parts: seq<Bytes>): Result<Bytes>
    requires parts != []
  {
    match Descend(repo, hash, parts[..|parts| - 1])
    case Failure(e) => Failure(e)
    case Success(last) => FileIn(repo, last, parts[|parts| - 1])
  }

  lemma ContentIsRead(repo: Repo, f: FileNode)
    ensures ReadContent(repo, Hex(f.hash)) == Success(f.content) <==> HoldsContent(repo, f)
  {
    hide Hex;
  }

  lemma FileInHeld(repo: Repo, t: Tree, hash: Bytes, name: Bytes, content: Bytes)
    requires Holds(repo, t, hash)
    ensures FileIn(repo, Hex(hash), name) == Success(content) <==> IsFile(t, [name], content)
  {
    hide Hex, ChildIn, ReadContent, HoldsContent, EncodeDirtree, FirstHash, ValidDirectory;
    ChildOfHeld(repo, t, hash, name);
    if f :| f in t.files && f.name == name {
      HashOfFile(t, f);
      ContentIsRead(repo, f);
      forall g | g in t.files && g.name == name ensures g.content == f.content {
        HashOfFile(t, g);
        ContentIsRead(repo, g);
      }
    } else {
      NoSuchFile(t, name);
    }
  }

  /** The first directory of a path decides where the rest of it is read. */
  lemma BelowStep(repo: Repo, hash: string, parts: seq<Bytes>, subdir: string)
    requires |parts| > 1 && ChildIn(repo, hash, parts[0]) == Success(Child("", subdir))
    requires subdir != ""
    ensures BelowRoot(repo, hash, parts) == BelowRoot(repo, subdir, parts[1..])
  {
    var dirs := parts[..|parts| - 1];
    assert dirs[0] == parts[0] && dirs[1..] == parts[1..][..|parts[1..]| - 1];
  }

  lemma OneDirOfName(dirs: seq<DirNode>, d: DirNode, e: DirNode)
    requires DistinctNames(DirEntries(dirs)) && d in dirs && e in dirs && d.name == e.name
    ensures e == d
  {
    var es := DirEntries(dirs);
    var i :| 0 <= i < |dirs| && dirs[i] == d;
    var j :| 0 <= j < |dirs| && dirs[j] == e;
    assert es[i].name == es[j].name;
    assert i == j;
  }

  lemma {:induction false} WalkFindsFile(repo: Repo, t: Tree, hash: Bytes, parts: seq<Bytes>, content: Bytes)
    requires Holds(repo, t, hash) && parts != []
    ensures BelowRoot(repo, Hex(hash), parts) == Success(content) <==> IsFile(t, parts, content)
    decreases |parts|
  {
    if |parts| == 1 {
      assert parts[..|parts| - 1] == [] && parts == [parts[0]];
      FileInHeld(repo, t, hash, parts[0], content);
    } else {
      ChildOfHeld(repo, t, hash, parts[0]);
      if d :| d in t.dirs && d.name == parts[0] {
        HashOfDir(t, d);
        BelowStep(repo, Hex(hash), parts, Hex(d.hash));
        WalkFindsFile(repo, d.tree, d.hash, parts[1..], content);
        forall e | e in t.dirs && e.name == parts[0] ensures e == d {
          OneDirOfName(t.dirs, d, e);
        }
      } else {
        NoSuchDir(t, parts[0]);
        BelowMissing(repo, Hex(hash), parts);
      }
    }
  }

  lemma BelowMissing(repo: Repo, hash: string, parts: seq<Bytes>)
    requires |parts| > 1
    requires ChildIn(repo, hash, parts[0]).Success? && ChildIn(repo, hash, parts[0]).value.subdir == ""
    ensures BelowRoot(repo, hash, parts).Failure?
  {
  }

  /** For a repository that holds a commit of a tree, reading any path, one with empty names too, succeeds with some
      content exactly when the tree has a file of that content at the path's parts. */
  lemma ReadPartsIsTreeLookup(repo: Repo, commit: string, c: Commit, t: Tree, path: Bytes, content: Bytes)
    requires CommitObject(commit) in repo.objects && repo.objects[CommitObject(commit)] == EncodeCommit(c)
    requires |c.dirtree| == 32 && |EncodeCommit(c)| <= 0xffff_ffff
    requires Holds(repo, t, c.dirtree)
    ensures FileAt(repo, commit, PathParts(path)) == Success(content) <==> IsFile(t, PathParts(path), content)
  {
    RootOfEncodedCommit(c);
    WalkFindsFile(repo, t, c.dirtree, PathParts(path), content);
    assert FileAt(repo, commit, PathParts(path)) == BelowRoot(repo, Hex(c.dirtree), PathParts(path));
  }

  /** Main result: for a repository that holds a commit of a tree, reading the path of some names, absolute or not,
      succeeds with some content exactly when the tree has a file of that content under these names. */
  lemma ReadFileIsTreeLookup(repo: Repo, commit: string, c: Commit, t: Tree, before: nat, names: seq<Bytes>, after: nat,
                             content: Bytes)
    requires CommitObject(commit) in repo.objects && repo.objects[CommitObject(commit)] == EncodeCommit(c)
    requires |c.dirtree| == 32 && |EncodeCommit(c)| <= 0xffff_ffff
    requires Holds(repo, t, c.dirtree)
    requires names != [] && forall n | n in names :: IsName(n)
    ensures var path := Slashes(before) + Join(names, 47) + Slashes(after);
            FileAt(repo, commit, PathParts(path)) == Success(content) <==> IsFile(t, names, content)
  {
    hide FileAt, Holds, IsFile, PathParts, Join, EncodeCommit;
    PartsAreNames(before, names, after);
    ReadPartsIsTreeLookup(repo, commit, c, t, Slashes(before) + Join(names, 47) + Slashes(after), content);
  }
}
