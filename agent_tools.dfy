/**
 The four sandboxed tools the agent offers the model (list a directory, read a
 file, write a file, run a Python script) over an abstract file system. Each
 tool resolves its path against the working directory, runs the guard of
 module PathGuard, checks the kind of the target and returns one string;
 failures are strings that start with `Error:`.
 */
module AgentTools {
  import opened PosixPath
  import opened PathGuard
  import opened ToolOutput

  datatype Option<T> = None | Some(value: T)

  /** `str()` of the optional `directory` argument, as the messages show it. */
  function Shown(directory: Option<Path>): (s: string)
    ensures directory.Some? ==> s == directory.value
    ensures directory.None? ==> s == "None"
  {
    match directory
    case None => "None"
    case Some(d) => d
  }

  /** What a stored path holds. */
  datatype Node = Directory | RegularFile(text: string)

  /** How the interpreter subprocess ends, as the operating system reports it. */
  datatype Process =
    | Exited(stdout: string, stderr: string, code: int)
    | TimedOut
    | SpawnFailed(reason: string)

  /** The operating-system errors the writes can raise. */
  datatype OsError = IsADirectory(path: Path) | NotADirectory(path: Path)

  /** `str(e)` of such an error. */
  function Describe(e: OsError): string {
    match e
    case IsADirectory(p) => "[Errno 21] Is a directory: '" + p + "'"
    case NotADirectory(p) => "[Errno 20] Not a directory: '" + p + "'"
  }

  /** `os.path.dirname` on locations: the root is its own parent. */
  function Parent(k: seq<string>): (d: seq<string>)
    ensures k == [] ==> d == []
    ensures k != [] ==> |d| == |k| - 1 && d <= k
  {
    if k == [] then [] else k[..|k| - 1]
  }

  /** The root is a directory and every other stored path sits in a stored
      directory. */
  ghost predicate WellFormed(nodes: map<seq<string>, Node>) {
    [] in nodes && nodes[[]] == Directory &&
    forall k :: k in nodes && k != [] ==> Parent(k) in nodes && nodes[Parent(k)] == Directory
  }

  /** Every proper ancestor of a stored path is a stored directory. */
  lemma {:induction false} AncestorsAreDirectories(nodes: map<seq<string>, Node>, k: seq<string>, j: nat)
    requires WellFormed(nodes) && k in nodes && j < |k|
    ensures k[..j] in nodes && nodes[k[..j]] == Directory
    decreases |k|
  {
    var p := Parent(k);
    if j < |p| {
      AncestorsAreDirectories(nodes, p, j);
      assert p[..j] == k[..j];
    } else {
      assert p == k[..j];
    }
  }

  /** The length of the deepest stored ancestor of `d` (or of `d` itself),
      found by walking up as `os.makedirs` does. */
  function Deepest(nodes: map<seq<string>, Node>, d: seq<string>): (m: nat)
    ensures m <= |d|
    ensures forall j :: m < j <= |d| ==> d[..j] !in nodes
    ensures [] in nodes ==> d[..m] in nodes
    decreases |d|
  {
    if d in nodes || d == [] then
      assert d[..|d|] == d;
      |d|
    else
      var m := Deepest(nodes, d[..|d| - 1]);
      assert forall j :: 0 <= j < |d| ==> d[..|d| - 1][..j] == d[..j];
      assert d[..|d|] == d;
      m
  }

  /** Outcome of a write once the guard has passed. */
  datatype WritePlan = Refused(error: OsError) | Writes(newDirs: seq<seq<string>>)

  /** Outermost first, the directories from `d[..m + 1]` down to `d`. */
  function MissingDirs(d: seq<string>, m: nat): (dirs: seq<seq<string>>)
    requires m < |d|
    ensures |dirs| == |d| - m
    ensures forall i :: 0 <= i < |dirs| ==> dirs[i] == d[..m + 1 + i]
  {
    seq(|d| - m, i requires 0 <= i < |d| - m => d[..m + 1 + i])
  }

  /** The missing directories form a chain, each inside the one before. */
  lemma MissingDirsChain(d: seq<string>, m: nat)
    requires m < |d|
    ensures var dirs := MissingDirs(d, m);
      dirs[|dirs| - 1] == d && Parent(dirs[0]) == d[..m] &&
      (forall i :: 0 <= i < |dirs| ==> dirs[i] != [] && |dirs[i]| == m + 1 + i) &&
      (forall i :: 0 < i < |dirs| ==> Parent(dirs[i]) == dirs[i - 1])
  {
    var dirs := MissingDirs(d, m);
    assert dirs[|dirs| - 1] == d[..|d|] == d;
    forall i | 0 < i < |dirs|
      ensures Parent(dirs[i]) == dirs[i - 1]
    {
      assert dirs[i][..|dirs[i]| - 1] == d[..m + i];
    }
  }

  /** Walking up from a missing `d`: the deepest stored ancestor, which is a
      regular file exactly when some ancestor of `d` is one. */
  lemma DeepestKind(nodes: map<seq<string>, Node>, d: seq<string>)
    requires WellFormed(nodes) && d !in nodes
    ensures var m := Deepest(nodes, d);
      m < |d| && d[..m] in nodes &&
      (nodes[d[..m]].RegularFile? <==> exists j :: 0 <= j < |d| && d[..j] in nodes && nodes[d[..j]].RegularFile?)
  {
    var m := Deepest(nodes, d);
    assert d[..|d|] == d;
    if !nodes[d[..m]].RegularFile? {
      forall j | 0 <= j < |d| && d[..j] in nodes
        ensures nodes[d[..j]] == Directory
      {
        if j < m {
          AncestorsAreDirectories(nodes, d[..m], j);
          PrefixOfPrefix(d, m, j);
        }
      }
    }
  }

  lemma PrefixOfPrefix<T>(s: seq<T>, m: nat, j: nat)
    requires j <= m <= |s|
    ensures s[..m][..j] == s[..j]
  {
  }

  /** A path whose parent is `k` is `k` extended by its last component. */
  lemma ChildOf(k: seq<string>, p: seq<string>)
    requires p != [] && Parent(p) == k
    ensures k + [p[|p| - 1]] == p
  {
  }

  /** `os.makedirs(d)` for a missing `d`: the missing directories outermost
      first, or the error of the first `mkdir` when the deepest existing
      ancestor is a regular file. */
  function MakeDirsPlan(nodes: map<seq<string>, Node>, d: seq<string>): (p: WritePlan)
    requires WellFormed(nodes) && d !in nodes
    ensures p.Refused? <==> exists j :: 0 <= j < |d| && d[..j] in nodes && nodes[d[..j]].RegularFile?
    ensures p.Writes? ==>
      var dirs := p.newDirs;
      |dirs| > 0 && dirs[|dirs| - 1] == d &&
      Parent(dirs[0]) in nodes && nodes[Parent(dirs[0])] == Directory &&
      (forall i :: 0 <= i < |dirs| ==> dirs[i] !in nodes && dirs[i] != []) &&
      (forall i :: 0 < i < |dirs| ==> Parent(dirs[i]) == dirs[i - 1]) &&
      (forall i, j :: 0 <= i < j < |dirs| ==> |dirs[i]| < |dirs[j]|)
  {
    var m := Deepest(nodes, d);
    DeepestKind(nodes, d);
    if nodes[d[..m]].RegularFile? then
      Refused(NotADirectory(Render(d[..m + 1])))
    else
      MissingDirsChain(d, m);
      Writes(MissingDirs(d, m))
  }

  /** `open(target, 'w')` once the parent exists: refused when the parent is a
      regular file or the target is a directory. */
  function OpenForWriting(nodes: map<seq<string>, Node>, k: seq<string>, target: Path): (e: Option<OsError>)
    requires Parent(k) in nodes
    ensures e.None? <==> nodes[Parent(k)] == Directory && (k in nodes ==> nodes[k].RegularFile?)
  {
    if nodes[Parent(k)].RegularFile? then Some(NotADirectory(target))
    else if k in nodes && nodes[k] == Directory then Some(IsADirectory(target))
    else None
  }

  /** What `write_file` does to location `k` (the target `target`) once the
      guard has passed: create the missing parent chain if the parent does not
      exist, then open the target for writing. */
  function PlanWrite(nodes: map<seq<string>, Node>, k: seq<string>, target: Path): (p: WritePlan)
    requires WellFormed(nodes)
    ensures p.Writes? ==> k != [] && (k in nodes ==> nodes[k].RegularFile?)
    ensures p.Writes? ==> forall i :: 0 <= i < |p.newDirs| ==> p.newDirs[i] !in nodes
    ensures p.Writes? && p.newDirs == [] ==> Parent(k) in nodes && nodes[Parent(k)] == Directory
    ensures p.Writes? && p.newDirs != [] ==> Parent(k) !in nodes && p.newDirs[|p.newDirs| - 1] == Parent(k)
  {
    var d := Parent(k);
    if d !in nodes then MakeDirsPlan(nodes, d)
    else match OpenForWriting(nodes, k, target)
      case Some(e) => Refused(e)
      case None => Writes([])
  }

  /** A write is refused exactly when some proper ancestor of the target is a
      regular file or the target itself is a directory. */
  lemma WriteRefusedExactly(nodes: map<seq<string>, Node>, k: seq<string>, target: Path)
    requires WellFormed(nodes)
    ensures PlanWrite(nodes, k, target).Refused? <==>
      (exists j :: 0 <= j < |k| && k[..j] in nodes && nodes[k[..j]].RegularFile?) ||
      (k in nodes && nodes[k] == Directory)
  {
    var d := Parent(k);
    assert forall j :: 0 <= j <= |d| ==> k[..j] == d[..j];
    if d !in nodes {
      assert k !in nodes;
      assert k != [];
    } else if k != [] {
      assert k[..|k| - 1] == d;
      forall j | 0 <= j < |d|
        ensures d[..j] in nodes && nodes[d[..j]] == Directory
      {
        AncestorsAreDirectories(nodes, d, j);
      }
    }
  }

  /** The file system after `os.makedirs` created `dirs`. */
  function MakeDirs(nodes: map<seq<string>, Node>, dirs: seq<seq<string>>): (r: map<seq<string>, Node>)
    ensures forall p :: p in r <==> p in nodes || p in dirs
    ensures forall p :: p in dirs ==> r[p] == Directory
    ensures forall p :: p in nodes && p !in dirs ==> r[p] == nodes[p]
  {
    nodes + map p | p in dirs :: Directory
  }

  /** A well-formed store whose creation order lists every stored path but
      the root, once each. */
  ghost predicate Consistent(nodes: map<seq<string>, Node>, created: seq<seq<string>>) {
    WellFormed(nodes) &&
    (forall i, j :: 0 <= i < j < |created| ==> created[i] != created[j]) &&
    (forall k :: k in created <==> k in nodes && k != [])
  }

  /** Creating a chain of missing directories under an existing one keeps the
      store consistent. */
  lemma AddDirectoriesConsistent(nodes: map<seq<string>, Node>, created: seq<seq<string>>, dirs: seq<seq<string>>)
    requires Consistent(nodes, created)
    requires |dirs| > 0
    requires Parent(dirs[0]) in nodes && nodes[Parent(dirs[0])] == Directory
    requires forall i :: 0 <= i < |dirs| ==> dirs[i] !in nodes && dirs[i] != []
    requires forall i :: 0 < i < |dirs| ==> Parent(dirs[i]) == dirs[i - 1]
    requires forall i, j :: 0 <= i < j < |dirs| ==> |dirs[i]| < |dirs[j]|
    ensures Consistent(MakeDirs(nodes, dirs), created + dirs)
  {
    var nodes' := MakeDirs(nodes, dirs);
    var created' := created + dirs;
    assert forall p :: p in dirs ==> p in nodes' && nodes'[p] == Directory;
    forall q | q in nodes' && q != []
      ensures Parent(q) in nodes' && nodes'[Parent(q)] == Directory
    {
      if q !in nodes {
        var i :| 0 <= i < |dirs| && dirs[i] == q;
        if i > 0 {
          assert dirs[i - 1] in dirs;
        }
      }
    }
    forall i, j | 0 <= i < j < |created'|
      ensures created'[i] != created'[j]
    {
      if j >= |created| && i < |created| {
        assert created'[i] in created;
        assert created'[j] == dirs[j - |created|];
      }
    }
  }

  /** Writing a regular file whose parent is a directory, over nothing or
      over another regular file, keeps the store consistent. */
  lemma StoreFileConsistent(nodes: map<seq<string>, Node>, created: seq<seq<string>>, k: seq<string>, text: string)
    requires Consistent(nodes, created)
    requires Parent(k) in nodes && nodes[Parent(k)] == Directory
    requires k in nodes ==> nodes[k].RegularFile?
    ensures Consistent(nodes[k := RegularFile(text)], if k in nodes then created else created + [k])
  {
    assert k != [];
  }

  /** Once `os.makedirs` has created the missing parent chain, opening the
      target succeeds. */
  lemma MakeDirsThenOpen(nodes: map<seq<string>, Node>, k: seq<string>, target: Path)
    requires WellFormed(nodes) && Parent(k) !in nodes
    requires MakeDirsPlan(nodes, Parent(k)).Writes?
    ensures var nodes' := MakeDirs(nodes, MakeDirsPlan(nodes, Parent(k)).newDirs);
      k !in nodes' && Parent(k) in nodes' && OpenForWriting(nodes', k, target).None?
  {
    var dirs := MakeDirsPlan(nodes, Parent(k)).newDirs;
    assert k != [];
    assert k !in nodes;
    assert Parent(k) == dirs[|dirs| - 1];
    assert k !in dirs by {
      forall i | 0 <= i < |dirs| ensures dirs[i] != k {
        assert |dirs[i]| <= |Parent(k)|;
      }
    }
  }

  /** A working file system: a map from locations to nodes, the order paths
      were created in (the order a directory listing reports them in), the
      process working directory and the size reported for a directory. */
  class FileSystem {
    var nodes: map<seq<string>, Node>
    var created: seq<seq<string>>
    const cwd: Path
    const dirSize: nat

    ghost predicate Valid()
      reads this
    {
      IsAbs(cwd) && Consistent(nodes, created)
    }

    /** An empty file system: only the root directory exists. */
    constructor (cwd: Path, dirSize: nat)
      requires IsAbs(cwd)
      ensures Valid()
      ensures nodes == map[[] := Directory] && created == []
      ensures this.cwd == cwd && this.dirSize == dirSize
    {
      this.cwd := cwd;
      this.dirSize := dirSize;
      nodes := map[[] := Directory];
      created := [];
    }

    /** `os.path.isdir`. */
    predicate IsDir(k: seq<string>)
      reads this
      ensures Valid() && k == [] ==> IsDir(k)
      ensures Valid() && IsDir(k) && k != [] ==> Parent(k) in nodes && nodes[Parent(k)] == Directory
    {
      k in nodes && nodes[k] == Directory
    }

    /** `os.path.isfile`. */
    predicate IsFile(k: seq<string>)
      reads this
      ensures IsFile(k) ==> !(k in nodes && nodes[k] == Directory)
      ensures Valid() && IsFile(k) ==> k != [] && Parent(k) in nodes && nodes[Parent(k)] == Directory
    {
      k in nodes && nodes[k].RegularFile?
    }

    /** `os.path.getsize`: the length of a file's text, or the size the file
        system reports for a directory. */
    function Size(k: seq<string>): nat
      reads this
      requires k in nodes
    {
      match nodes[k]
      case Directory => dirSize
      case RegularFile(text) => |text|
    }

    /** `os.listdir`: the entries of `k`, in creation order. */
    function Children(k: seq<string>): (kids: seq<seq<string>>)
      reads this
      ensures forall p :: p in kids <==> p in created && p != [] && Parent(p) == k
      ensures Valid() ==> forall i, j :: 0 <= i < j < |kids| ==> kids[i] != kids[j]
    {
      ChildrenIn(created, k)
    }

    /** Every child of a location is stored, in it, under a name. */
    lemma ChildrenStored(k: seq<string>)
      requires Valid()
      ensures forall i :: 0 <= i < |Children(k)| ==>
        Children(k)[i] in nodes && Children(k)[i] != [] && Parent(Children(k)[i]) == k
    {
      var kids := Children(k);
      forall i | 0 <= i < |kids|
        ensures kids[i] in nodes && kids[i] != [] && Parent(kids[i]) == k
      {
        assert kids[i] in kids;
      }
    }

    /** The listing entries of stored paths. */
    function Entries(ps: seq<seq<string>>): (es: seq<Entry>)
      reads this
      requires forall i :: 0 <= i < |ps| ==> ps[i] in nodes && ps[i] != []
      ensures |es| == |ps|
      ensures forall i :: 0 <= i < |ps| ==>
        es[i] == Entry(ps[i][|ps[i]| - 1], Size(ps[i]), IsDir(ps[i]))
    {
      seq(|ps|, i reads this requires 0 <= i < |ps| && ps[i] in nodes && ps[i] != [] =>
        Entry(ps[i][|ps[i]| - 1], Size(ps[i]), IsDir(ps[i])))
    }

    lemma EntriesSnoc(ps: seq<seq<string>>, i: nat)
      requires i < |ps|
      requires forall j :: 0 <= j < |ps| ==> ps[j] in nodes && ps[j] != []
      ensures Entries(ps[..i + 1]) == Entries(ps[..i]) + [Entry(ps[i][|ps[i]| - 1], Size(ps[i]), IsDir(ps[i]))]
    {
    }

    /** The directory `get_files_info` lists: the working directory itself when
        no directory is given, which the guard therefore always accepts. */
    function ListTarget(workDir: Path, directory: Option<Path>): (t: Path)
      requires IsAbs(cwd)
      ensures directory.None? ==> Permitted(workDir, t, cwd)
    {
      match directory
      case None => Abspath(workDir, cwd)
      case Some(d) => TargetPath(workDir, d, cwd)
    }

    /** `get_files_info(working_directory, directory)`. */
    method GetFilesInfo(workDir: Path, directory: Option<Path>) returns (r: string)
      requires Valid()
      ensures var target := ListTarget(workDir, directory);
              var k := Location(target);
              r == if !Permitted(workDir, target, cwd) then OutsideError("list", Shown(directory))
                   else if !IsDir(k) then NotADirectoryMessage(Shown(directory))
                   else if Children(k) == [] then EmptyDirectory
                   else Listing(Entries(Children(k)))
    {
      var target := ListTarget(workDir, directory);
      var workDirPath := Abspath(workDir, cwd);
      if !StartsWith(target, workDirPath) {
        return OutsideError("list", Shown(directory));
      }
      var k := Location(target);
      if !IsDir(k) {
        return NotADirectoryMessage(Shown(directory));
      }
      var kids := Children(k);
      ChildrenStored(k);
      var filesInfo := DescribeEntries(k, kids);
      if filesInfo == [] {
        filesInfo := EmptyDirectory;
      }
      return filesInfo;
    }

    /** The loop of `get_files_info` over the entries `kids` of `k`: one
        listing line per entry, in order. */
    method DescribeEntries(k: seq<string>, kids: seq<seq<string>>) returns (filesInfo: string)
      requires forall i :: 0 <= i < |kids| ==> kids[i] in nodes && kids[i] != [] && Parent(kids[i]) == k
      ensures filesInfo == Listing(Entries(kids))
    {
      filesInfo := "";
      for i := 0 to |kids|
        invariant filesInfo == Listing(Entries(kids[..i]))
      {
        var name := kids[i][|kids[i]| - 1];
        var child := k + [name];
        ChildOf(k, kids[i]);
        var fileSize := Size(child);
        var fileIsDir := IsDir(child);
        EntriesSnoc(kids, i);
        ListingSnoc(Entries(kids[..i]), Entry(name, fileSize, fileIsDir));
        filesInfo := filesInfo + EntryLine(Entry(name, fileSize, fileIsDir));
      }
      assert kids[..|kids|] == kids;
    }

    /** `get_file_content(working_directory, file_path)`. */
    function GetFileContent(workDir: Path, filePath: Path): (r: string)
      reads this
      requires Valid()
      ensures var target := TargetPath(workDir, filePath, cwd);
              var k := Location(target);
              if !Permitted(workDir, target, cwd) then r == OutsideError("read", filePath)
              else if !IsFile(k) then r == NotAFileMessage(filePath)
              else if |TranslateNewlines(nodes[k].text)| <= MaxChars then r == TranslateNewlines(nodes[k].text)
              else r == TranslateNewlines(nodes[k].text)[..MaxChars] + TruncationMarker
    {
      var target := TargetPath(workDir, filePath, cwd);
      var workDirPath := Abspath(workDir, cwd);
      if !StartsWith(target, workDirPath) then OutsideError("read", filePath)
      else
        var k := Location(target);
        if !IsFile(k) then NotAFileMessage(filePath)
        else Truncate(TranslateNewlines(nodes[k].text))
    }

    /** `write_file(working_directory, file_path, content)`. */
    method WriteFile(workDir: Path, filePath: Path, content: string) returns (r: string)
      requires Valid()
      modifies this
      ensures Valid()
      ensures var target := TargetPath(workDir, filePath, cwd);
              !Permitted(workDir, target, cwd) ==>
                r == OutsideError("write to", filePath) && nodes == old(nodes) && created == old(created)
      ensures var target := TargetPath(workDir, filePath, cwd);
              var plan := PlanWrite(old(nodes), Location(target), target);
              Permitted(workDir, target, cwd) && plan.Refused? ==>
                r == CaughtMessage(Describe(plan.error)) && nodes == old(nodes) && created == old(created)
      ensures var target := TargetPath(workDir, filePath, cwd);
              var k := Location(target);
              var plan := PlanWrite(old(nodes), k, target);
              Permitted(workDir, target, cwd) && plan.Writes? ==>
                r == WrittenMessage(filePath, |content|) &&
                nodes == MakeDirs(old(nodes), plan.newDirs)[k := RegularFile(content)] &&
                created == old(created) + plan.newDirs + (if k in old(nodes) then [] else [k]) &&
                (forall p :: p in old(nodes) && p != k ==> p in nodes && nodes[p] == old(nodes)[p])
    {
      var target := TargetPath(workDir, filePath, cwd);
      var workDirPath := Abspath(workDir, cwd);
      if !StartsWith(target, workDirPath) {
        return OutsideError("write to", filePath);
      }
      var k := Location(target);
      var failure := WriteAt(k, target, content);
      if failure.Some? {
        return CaughtMessage(Describe(failure.value));
      }
      return WrittenMessage(filePath, |content|);
    }

    /** The `try` block of `write_file` for location `k`, named `target` in
        error messages: create the missing parent directories, then open the
        target and write `content`; the error raised on the way, if any. */
    method WriteAt(k: seq<string>, target: Path, content: string) returns (failure: Option<OsError>)
      requires Valid()
      modifies this
      ensures Valid()
      ensures var plan := PlanWrite(old(nodes), k, target);
              plan.Refused? ==> failure == Some(plan.error) && nodes == old(nodes) && created == old(created)
      ensures var plan := PlanWrite(old(nodes), k, target);
              plan.Writes? ==>
                failure == None &&
                nodes == MakeDirs(old(nodes), plan.newDirs)[k := RegularFile(content)] &&
                created == old(created) + plan.newDirs + (if k in old(nodes) then [] else [k])
    {
      var d := Parent(k);
      if d !in nodes {
        var made := MakeDirsPlan(nodes, d);
        if made.Refused? {
          return Some(made.error);
        }
        MakeDirsThenOpen(nodes, k, target);
        AddDirectories(made.newDirs);
      }
      var openError := OpenForWriting(nodes, k, target);
      if openError.Some? {
        return openError;
      }
      StoreFile(k, content);
      return None;
    }

    /** Record the directories `os.makedirs` creates. */
    method AddDirectories(dirs: seq<seq<string>>)
      requires Valid()
      requires |dirs| > 0
      requires Parent(dirs[0]) in nodes && nodes[Parent(dirs[0])] == Directory
      requires forall i :: 0 <= i < |dirs| ==> dirs[i] !in nodes && dirs[i] != []
      requires forall i :: 0 < i < |dirs| ==> Parent(dirs[i]) == dirs[i - 1]
      requires forall i, j :: 0 <= i < j < |dirs| ==> |dirs[i]| < |dirs[j]|
      modifies this
      ensures Valid()
      ensures nodes == MakeDirs(old(nodes), dirs) && created == old(created) + dirs
    {
      AddDirectoriesConsistent(nodes, created, dirs);
      nodes := MakeDirs(nodes, dirs);
      created := created + dirs;
    }

    /** `open(target, 'w').write(content)` once opening has succeeded. */
    method StoreFile(k: seq<string>, content: string)
      requires Valid()
      requires Parent(k) in nodes && nodes[Parent(k)] == Directory
      requires k in nodes ==> nodes[k].RegularFile?
      modifies this
      ensures Valid()
      ensures nodes == old(nodes)[k := RegularFile(content)]
      ensures created == old(created) + (if k in old(nodes) then [] else [k])
    {
      StoreFileConsistent(nodes, created, k, content);
      if k !in nodes {
        created := created + [k];
      }
      nodes := nodes[k := RegularFile(content)];
    }

    /** A write that reports success followed by a read of the same path
        gives back the content written, with its line ends translated and
        truncated as every read is. */
    method WriteThenRead(workDir: Path, filePath: Path, content: string) returns (written: string, read: string)
      requires Valid()
      modifies this
      ensures Valid()
      ensures !IsError(written) ==> read == Truncate(TranslateNewlines(content))
    {
      written := WriteFile(workDir, filePath, content);
      read := GetFileContent(workDir, filePath);
    }

    /** `run_python_file(working_directory, file_path)`, with the way the
        interpreter subprocess ends given as `process`; `invoked` tells whether
        the interpreter is invoked at all. */
    method RunPythonFile(workDir: Path, filePath: Path, process: Process) returns (r: string, invoked: bool)
      requires Valid()
      ensures var target := TargetPath(workDir, filePath, cwd);
              invoked <==> Permitted(workDir, target, cwd) && IsFile(Location(target)) && EndsWith(target, ".py")
      ensures var target := TargetPath(workDir, filePath, cwd);
              if !Permitted(workDir, target, cwd) then r == OutsideError("execute", filePath)
              else if !IsFile(Location(target)) then r == ScriptNotFoundMessage(filePath)
              else if !EndsWith(target, ".py") then r == NotPythonMessage(filePath)
              else r == RunResult(process, target)
    {
      var target := TargetPath(workDir, filePath, cwd);
      var workDirPath := Abspath(workDir, cwd);
      if !StartsWith(target, workDirPath) {
        return OutsideError("execute", filePath), false;
      }
      if !IsFile(Location(target)) {
        return ScriptNotFoundMessage(filePath), false;
      }
      if !EndsWith(target, ".py") {
        return NotPythonMessage(filePath), false;
      }
      invoked := true;
      match process
      case TimedOut =>
        r := ExecutionFailedMessage(TimeoutDescription(target));
      case SpawnFailed(reason) =>
        r := ExecutionFailedMessage(reason);
      case Exited(stdout, stderr, code) =>
        var statement := "STDOUT: " + stdout + " \nSTDERR: " + stderr;
        if code != 0 {
          statement := statement + "\nProcess exited with code " + IntToString(code);
        }
        if stdout == [] && stderr == [] {
          statement := NoOutput;
        }
        r := statement;
    }
  }

  /** The paths among `paths` whose parent is `k`, in the same order. */
  function ChildrenIn(paths: seq<seq<string>>, k: seq<string>): (kids: seq<seq<string>>)
    ensures forall p :: p in kids <==> p in paths && p != [] && Parent(p) == k
    ensures (forall i, j :: 0 <= i < j < |paths| ==> paths[i] != paths[j]) ==>
      forall i, j :: 0 <= i < j < |kids| ==> kids[i] != kids[j]
  {
    if paths == [] then []
    else
      var rest := ChildrenIn(paths[1..], k);
      (if paths[0] != [] && Parent(paths[0]) == k then [paths[0]] else []) + rest
  }

  /** `str()` of the timeout exception for the command `['python', target]`. */
  function TimeoutDescription(target: Path): (s: string)
    ensures |s| == |TimeoutHead| + |target| + |TimeoutTail|
    ensures StartsWith(s, TimeoutHead) && EndsWith(s, TimeoutTail)
    ensures s[|TimeoutHead|..|s| - |TimeoutTail|] == target
  {
    TimeoutHead + target + TimeoutTail
  }

  /** The text around the script's path in the timeout message. */
  const TimeoutHead: string := "Command '['python', '"
  const TimeoutTail: string := "']' timed out after 30 seconds"

  /** The string a started script produces. */
  function RunResult(process: Process, target: Path): (r: string)
    ensures !process.Exited? ==> IsError(r)
    ensures process.Exited? && process.stdout == [] && process.stderr == [] ==> r == NoOutput
    ensures process.Exited? && process.code != 0 && (process.stdout != [] || process.stderr != []) ==>
      EndsWith(r, "\nProcess exited with code " + IntToString(process.code))
  {
    match process
    case Exited(stdout, stderr, code) => ProcessReport(stdout, stderr, code)
    case TimedOut => ExecutionFailedMessage(TimeoutDescription(target))
    case SpawnFailed(reason) => ExecutionFailedMessage(reason)
  }
}
