/** The recursive walk of Upload in s3Backup.go: it maps every local path
    under the source to an object key and hands each regular, non-ignored
    file to UploadFile. Here the walk returns those hand-offs, in order, as
    a sequence of FileTask values.

    The file system is a finite tree giving what os.Stat and os.ReadDir
    report for each path; path.Join is a parameter. */
module Walker {
  import Paths

  /** The value of runtime.GOOS that selects the ignore set. */
  datatype Platform = Windows | Darwin | OtherPlatform

  const WindowsSystemFiles: seq<string> := ["$RECYCLE.BIN", "desktop.ini"]
  const DarwinSystemFiles: seq<string> := [".DS_Store"]

  /** The list the ignore set is filled from on each platform. */
  function SystemFiles(p: Platform): seq<string> {
    match p
    case Windows => WindowsSystemFiles
    case Darwin => DarwinSystemFiles
    case OtherPlatform => []
  }

  /** The names a regular file may not have to be uploaded. */
  function IgnoreSet(p: Platform): set<string> {
    match p
    case Windows => {"$RECYCLE.BIN", "desktop.ini"}
    case Darwin => {".DS_Store"}
    case OtherPlatform => {}
  }

  /** Builds the ignore set by copying the platform's list into it. */
  method IgnoredNames(p: Platform) returns (ignored: set<string>)
    ensures ignored == IgnoreSet(p)
  {
    var files := SystemFiles(p);
    ignored := {};
    var i := 0;
    while i < |files|
      invariant 0 <= i <= |files|
      invariant ignored == set j | 0 <= j < i :: files[j]
    {
      ignored := ignored + {files[i]};
      i := i + 1;
    }
    match p {
      case Windows => assert files[0] in ignored && files[1] in ignored;
      case Darwin => assert files[0] in ignored;
      case OtherPlatform =>
    }
  }

  /** What os.Stat (and, for a directory, os.ReadDir) reports for a path.
      os.Stat follows symbolic links, so a link shows as its target. */
  datatype FsNode =
    | StatFailed
    | Directory(entries: seq<DirEntry>)
    | UnreadableDirectory
    | Irregular                                   // a non-zero os.ModeType
    | RegularFile(size: int, modTime: string)     // modTime already formatted

  datatype DirEntry = DirEntry(name: string, node: FsNode)

  /** One call of UploadFile: its key, its local path, and the FileInfo
      fields it reads (name, size, formatted modification time). */
  datatype FileTask = FileTask(key: string, localPath: string, name: string, size: int, modTime: string)

  /** The key with at most one leading '/' removed. */
  function StripLeadingSlash(key: string): (r: string)
    ensures if Paths.HasPrefix(key, "/") then "/" + r == key else r == key
  {
    if Paths.HasPrefix(key, "/") then key[1..] else key
  }

  /** The tasks Upload produces for the path localPath whose FileInfo name
      is name, uploaded under key. The checks come in the source's order:
      stat failure, directory, irregular file, ignored name, upload. */
  function Walk(p: Platform, join: (string, string) -> string, key: string, localPath: string,
                name: string, node: FsNode): seq<FileTask>
    decreases node
  {
    var k := StripLeadingSlash(key);
    match node
    case StatFailed => []
    case Directory(entries) => WalkEntries(p, join, k, localPath, entries)
    case UnreadableDirectory => []
    case Irregular => []
    case RegularFile(size, modTime) =>
      if name in IgnoreSet(p) then [] else [FileTask(k, localPath, name, size, modTime)]
  }

  /** The tasks of the entries of a directory, in listing order; each child
      gets key + "/" + its name. */
  function WalkEntries(p: Platform, join: (string, string) -> string, key: string, localPath: string,
                       entries: seq<DirEntry>): seq<FileTask>
    decreases entries
  {
    if entries == [] then []
    else
      var last := entries[|entries| - 1];
      WalkEntries(p, join, key, localPath, entries[..|entries| - 1])
        + Walk(p, join, key + "/" + last.name, join(localPath, last.name), last.name, last.node)
  }

  /** Upload: recomputes the ignore set, strips the key, and loops over the
      directory listing, recursing into each entry. */
  method Upload(p: Platform, join: (string, string) -> string, key: string, localPath: string,
                name: string, node: FsNode) returns (tasks: seq<FileTask>)
    ensures tasks == Walk(p, join, key, localPath, name, node)
    decreases node
  {
    var ignored := IgnoredNames(p);
    var k := key;
    if Paths.HasPrefix(k, "/") {
      k := k[1..];
    }
    match node {
      case StatFailed =>
        tasks := [];
      case Directory(entries) =>
        tasks := [];
        var i := 0;
        while i < |entries|
          invariant 0 <= i <= |entries|
          invariant tasks == WalkEntries(p, join, k, localPath, entries[..i])
        {
          var f := entries[i].name;
          var sub := Upload(p, join, k + "/" + f, join(localPath, f), f, entries[i].node);
          assert entries[..i + 1][..i] == entries[..i];
          tasks := tasks + sub;
          i := i + 1;
        }
        assert entries[..i] == entries;
      case UnreadableDirectory =>
        tasks := [];
      case Irregular =>
        tasks := [];
      case RegularFile(size, modTime) =>
        if name in ignored {
          tasks := [];
        } else {
          tasks := [FileTask(k, localPath, name, size, modTime)];
        }
    }
  }

  // ----- A reference description of the tree: paths of entry indices -----

  /** path (a list of entry indices) leads from node through directories. */
  predicate ValidPath(node: FsNode, path: seq<nat>)
    decreases path
  {
    path == [] || (node.Directory? && path[0] < |node.entries| && ValidPath(node.entries[path[0]].node, path[1..]))
  }

  /** The node reached by following path. */
  function NodeAt(node: FsNode, path: seq<nat>): FsNode
    requires ValidPath(node, path)
    decreases path
  {
    if path == [] then node else NodeAt(node.entries[path[0]].node, path[1..])
  }

  /** The FileInfo name of the node reached by path. */
  function NameAt(name: string, node: FsNode, path: seq<nat>): string
    requires ValidPath(node, path)
    decreases path
  {
    if path == [] then name
    else var e := node.entries[path[0]]; NameAt(e.name, e.node, path[1..])
  }

  /** The key under which the node reached by path is uploaded: at each
      level one leading '/' is stripped, then "/" and the entry name added. */
  function KeyAt(key: string, node: FsNode, path: seq<nat>): string
    requires ValidPath(node, path)
    decreases path
  {
    if path == [] then StripLeadingSlash(key)
    else var e := node.entries[path[0]]; KeyAt(StripLeadingSlash(key) + "/" + e.name, e.node, path[1..])
  }

  /** The local path of the node reached by path. */
  function LocalAt(join: (string, string) -> string, localPath: string, node: FsNode, path: seq<nat>): string
    requires ValidPath(node, path)
    decreases path
  {
    if path == [] then localPath
    else var e := node.entries[path[0]]; LocalAt(join, join(localPath, e.name), e.node, path[1..])
  }

  /** The task a regular file reached by path would be. */
  function TaskAt(join: (string, string) -> string, key: string, localPath: string, name: string,
                  node: FsNode, path: seq<nat>): FileTask
    requires ValidPath(node, path) && NodeAt(node, path).RegularFile?
  {
    var leaf := NodeAt(node, path);
    FileTask(KeyAt(key, node, path), LocalAt(join, localPath, node, path), NameAt(name, node, path),
             leaf.size, leaf.modTime)
  }

  /** The tasks of one entry are among the tasks of its directory. */
  lemma {:induction false} EntryTasksIncluded(p: Platform, join: (string, string) -> string, key: string,
                                              localPath: string, entries: seq<DirEntry>, i: nat, t: FileTask)
    requires i < |entries|
    requires t in Walk(p, join, key + "/" + entries[i].name, join(localPath, entries[i].name),
                       entries[i].name, entries[i].node)
    ensures t in WalkEntries(p, join, key, localPath, entries)
  {
    if i < |entries| - 1 {
      var init := entries[..|entries| - 1];
      assert init[i] == entries[i];
      EntryTasksIncluded(p, join, key, localPath, init, i, t);
    }
  }

  /** Each task of a directory comes from one of its entries. */
  lemma {:induction false} EntryOfTask(p: Platform, join: (string, string) -> string, key: string,
                                       localPath: string, entries: seq<DirEntry>, t: FileTask)
      returns (i: nat)
    requires t in WalkEntries(p, join, key, localPath, entries)
    ensures i < |entries|
    ensures t in Walk(p, join, key + "/" + entries[i].name, join(localPath, entries[i].name),
                      entries[i].name, entries[i].node)
  {
    var init := entries[..|entries| - 1];
    var last := entries[|entries| - 1];
    if t in WalkEntries(p, join, key, localPath, init) {
      i := EntryOfTask(p, join, key, localPath, init, t);
      assert init[i] == entries[i];
    } else {
      i := |entries| - 1;
    }
  }

  /** Completeness: every regular file reachable through readable
      directories whose own name is not ignored is handed to UploadFile,
      with the key built level by level. Only the file's name is checked,
      so a directory named like an ignored file is still walked. */
  lemma {:induction false} RegularFileUploaded(p: Platform, join: (string, string) -> string, key: string,
                                               localPath: string, name: string, node: FsNode, path: seq<nat>)
    requires ValidPath(node, path) && NodeAt(node, path).RegularFile?
    requires NameAt(name, node, path) !in IgnoreSet(p)
    ensures TaskAt(join, key, localPath, name, node, path) in Walk(p, join, key, localPath, name, node)
    decreases path
  {
    if path != [] {
      var i := path[0];
      var e := node.entries[i];
      var k := StripLeadingSlash(key);
      RegularFileUploaded(p, join, k + "/" + e.name, join(localPath, e.name), e.name, e.node, path[1..]);
      EntryTasksIncluded(p, join, k, localPath, node.entries, i, TaskAt(join, key, localPath, name, node, path));
    }
  }

  /** Soundness: every task is a reachable regular file with a name outside
      the ignore set, at the key and local path that its path gives. */
  lemma {:induction false} TaskIsRegularFile(p: Platform, join: (string, string) -> string, key: string,
                                             localPath: string, name: string, node: FsNode, t: FileTask)
      returns (path: seq<nat>)
    requires t in Walk(p, join, key, localPath, name, node)
    ensures ValidPath(node, path) && NodeAt(node, path).RegularFile?
    ensures NameAt(name, node, path) !in IgnoreSet(p)
    ensures t == TaskAt(join, key, localPath, name, node, path)
    decreases node
  {
    var k := StripLeadingSlash(key);
    match node
    case RegularFile(_, _) =>
      path := [];
    case Directory(entries) =>
      var i := EntryOfTask(p, join, k, localPath, entries, t);
      var e := entries[i];
      var rest := TaskIsRegularFile(p, join, k + "/" + e.name, join(localPath, e.name), e.name, e.node, t);
      path := [i] + rest;
      assert path[1..] == rest;
  }

  /** No task ever carries an ignored name. */
  lemma IgnoredNeverUploaded(p: Platform, join: (string, string) -> string, key: string,
                             localPath: string, name: string, node: FsNode)
    ensures forall t :: t in Walk(p, join, key, localPath, name, node) ==> t.name !in IgnoreSet(p)
  {
    forall t | t in Walk(p, join, key, localPath, name, node) ensures t.name !in IgnoreSet(p) {
      var path := TaskIsRegularFile(p, join, key, localPath, name, node, t);
    }
  }

  /** A directory's tasks do not depend on its own name: a corollary of the
      walk checking the ignore set only on regular files, stated apart
      because a directory named like a system file is still walked. */
  lemma DirectoryNameNotChecked(p: Platform, join: (string, string) -> string, key: string,
                                localPath: string, name1: string, name2: string, entries: seq<DirEntry>)
    ensures Walk(p, join, key, localPath, name1, Directory(entries))
         == Walk(p, join, key, localPath, name2, Directory(entries))
  {
  }

  /** On Windows a directory named $RECYCLE.BIN is walked, and a
      desktop.ini beside it is skipped. */
  lemma WindowsRecycleBinWalked(join: (string, string) -> string, a: FsNode)
    requires a == RegularFile(7, "2024-01-02 03:04:05")
    ensures Walk(Windows, join, "/backup", "/src", "src",
                 Directory([DirEntry("$RECYCLE.BIN", Directory([DirEntry("a.txt", a)])),
                            DirEntry("desktop.ini", a)]))
         == [FileTask("backup/$RECYCLE.BIN/a.txt", join(join("/src", "$RECYCLE.BIN"), "a.txt"), "a.txt",
                      7, "2024-01-02 03:04:05")]
  {
    var inner := Directory([DirEntry("a.txt", a)]);
    var es := [DirEntry("$RECYCLE.BIN", inner), DirEntry("desktop.ini", a)];
    assert es[..1] == [DirEntry("$RECYCLE.BIN", inner)];
    assert es[..1][..0] == [];
    assert [DirEntry("a.txt", a)][..0] == [];
    var k := "backup";
    assert StripLeadingSlash("/backup") == k;
    var dirKey := "backup/$RECYCLE.BIN";
    assert k + "/" + "$RECYCLE.BIN" == dirKey;
    assert dirKey[0] == 'b';
    assert StripLeadingSlash(dirKey) == dirKey;
    var fileKey := "backup/$RECYCLE.BIN/a.txt";
    assert dirKey + "/" + "a.txt" == fileKey;
    assert fileKey[0] == 'b';
    assert StripLeadingSlash(fileKey) == fileKey;
    assert "a.txt" !in IgnoreSet(Windows);
    assert Walk(Windows, join, fileKey, join(join("/src", "$RECYCLE.BIN"), "a.txt"), "a.txt", a)
        == [FileTask(fileKey, join(join("/src", "$RECYCLE.BIN"), "a.txt"), "a.txt", 7, "2024-01-02 03:04:05")];
    assert Walk(Windows, join, k + "/" + "desktop.ini", join("/src", "desktop.ini"), "desktop.ini", a) == [];
    assert Walk(Windows, join, dirKey, join("/src", "$RECYCLE.BIN"), "$RECYCLE.BIN", inner)
        == WalkEntries(Windows, join, dirKey, join("/src", "$RECYCLE.BIN"), [DirEntry("a.txt", a)])
        == Walk(Windows, join, fileKey, join(join("/src", "$RECYCLE.BIN"), "a.txt"), "a.txt", a);
    assert WalkEntries(Windows, join, k, "/src", es)
        == WalkEntries(Windows, join, k, "/src", es[..1])
         + Walk(Windows, join, k + "/" + "desktop.ini", join("/src", "desktop.ini"), "desktop.ini", a);
    assert WalkEntries(Windows, join, k, "/src", es[..1])
        == Walk(Windows, join, dirKey, join("/src", "$RECYCLE.BIN"), "$RECYCLE.BIN", inner);
  }

  /** The four slash cases on concrete paths, after Upload's strip: a file
      into "x/" lands at "x/b", a directory's contents into "x/" under "x",
      a file onto "x" at "x", and a directory onto "x" is rejected. */
  lemma ResolvedKeyExamples(stat: Paths.SourceStat)
    requires stat != Paths.SourceMissing
    ensures var r := Paths.SanitizePaths("/a/b", "s3://bucket/x/", stat, Paths.Parsed("bucket", "/x/"));
      r.Ok? && StripLeadingSlash(r.value.key) == "x/b" && r.value.source == "/a/b"
    ensures var r := Paths.SanitizePaths("/a/b/", "s3://bucket/x/", stat, Paths.Parsed("bucket", "/x/"));
      r.Ok? && StripLeadingSlash(r.value.key) == "x" && r.value.source == "/a/b"
    ensures var r := Paths.SanitizePaths("/a/b", "s3://bucket/x", stat, Paths.Parsed("bucket", "/x"));
      r.Ok? && StripLeadingSlash(r.value.key) == "x"
    ensures Paths.SanitizePaths("/a/b/", "s3://bucket/x", stat, Paths.Parsed("bucket", "/x"))
         == Paths.Err(Paths.DirectoryOntoKey)
  {
    assert Paths.TrimTrailingSlashes("/a/b") == "/a/b";
    assert Paths.LastSlash("/a/b") == 2;
    assert Paths.Base("/a/b") == "b";
  }
}
