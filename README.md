# Sandboxed agent tools

The system is a small command-line coding agent. A language model works on a
project by calling four tools. The tools are defined in
`functions/funcs_for_agent.py`:

- `get_files_info` lists a directory.
- `get_file_content` reads a file, cut at 10000 characters.
- `write_file` creates or overwrites a file, creating the missing parent
  directories first.
- `run_python_file` runs a Python script for at most 30 seconds and reports
  what it printed.

Every tool first resolves its path with `os.path.abspath(os.path.join(...))`.
It then applies a guard: the normalised working directory must be a string
prefix of the target. Every tool returns a single string. Failures are
strings that start with `Error:`.

This project models that layer in Dafny and proves properties about it.

- `posix_path.dfy` (module `PosixPath`) models the POSIX path functions the
  guard relies on: `join`, `split('/')`, `normpath` and `abspath`. It also
  defines the location (the list of components) that the file system
  resolves a path to.
- `path_guard.dfy` (module `PathGuard`) models the guard and characterises it
  exactly. A target passes when it lies inside the working directory. It
  also passes when it lies in a sibling directory whose name extends the
  working directory's last component. With root `/work`, the path
  `../work2/x` is accepted. That is how the code is written, and the model
  keeps it.
- `tool_output.dfy` (module `ToolOutput`) holds the texts the tools produce:
  - Python's `str()` of integers and booleans;
  - the listing lines and the empty-directory sentence;
  - the newline translation of a text-mode read, which turns `\r\n` and a
    lone `\r` into `\n` before characters are counted;
  - the truncation rule and its marker, which is a plain string, so
    `{file_path}` appears literally;
  - the report of a finished script;
  - the fixed error messages.
- `agent_tools.dfy` (module `AgentTools`) holds the tools themselves:
  - The file system is a class `FileSystem`. It maps locations to
    directories or regular files and records the order in which paths were
    created. A directory listing reports entries in that order.
  - `WriteFile` updates the file system in place.
  - The listing loop is a `for` loop proved against `Listing`.
  - How the interpreter subprocess ends (exit with output and a return
    code, time out, or fail to start) is a parameter of `RunPythonFile`.

## Model

| member | source | states |
|---|---|---|
| PosixPath.Join | functions/funcs_for_agent.py:9 | `os.path.join`: an absolute second argument replaces the first; otherwise the result starts with the first argument, ends with the second, puts exactly one `/` between them when the first does not already end in one, and is absolute exactly when the first is |
| PosixPath.Split | functions/funcs_for_agent.py:7 | `str.split('/')`, as `normpath` uses it, gives at least one piece and no piece holds a separator |
| PosixPath.LeadingSlashes | functions/funcs_for_agent.py:7 | `normpath` keeps at most two leading separators, and keeps some exactly when the path is absolute |
| PosixPath.JoinWithSplit | functions/funcs_for_agent.py:7 | joining the pieces of `split('/')` with `/` gives the string back |
| PosixPath.SplitJoinWith | functions/funcs_for_agent.py:7 | splitting a `/`-join of separator-free components gives the components back |
| PosixPath.CollapseClean | functions/funcs_for_agent.py:7 | the `normpath` component loop leaves no empty or `.` component, and leaves `..` only at the start of a relative path |
| PosixPath.Normpath | functions/funcs_for_agent.py:7 | `os.path.normpath` is never empty and keeps a path absolute exactly when it was |
| PosixPath.NormpathIdempotent | functions/funcs_for_agent.py:7 | normalising an already normalised path changes nothing |
| PosixPath.Abspath | functions/funcs_for_agent.py:7 | `os.path.abspath` always gives an absolute path |
| PosixPath.Location | functions/funcs_for_agent.py:15 | the location a path resolves to has only proper components (no empty, `.`, `..` or separator) |
| PosixPath.LocationOfNormpath | functions/funcs_for_agent.py:9-10 | an absolute path and its normal form resolve to the same location |
| PosixPath.NormpathRendersLocation | functions/funcs_for_agent.py:9-10 | a path with one leading separator normalises to `/` followed by its location's components joined by `/` |
| PathGuard.TargetPath | functions/funcs_for_agent.py:33 | the resolved target is always absolute |
| PathGuard.Permitted | functions/funcs_for_agent.py:12 | the `startswith` guard only lets through absolute targets at least as long as the working directory |
| PathGuard.RenderPrefix | functions/funcs_for_agent.py:36 | one rendered location is a string prefix of another exactly when it is a component prefix or a sibling whose last name extends it |
| PathGuard.GuardAcceptsExactly | functions/funcs_for_agent.py:33-36 | the guard accepts a target exactly when its location is inside the working directory's location or in such a sibling (both directions) |
| PathGuard.SiblingDirectoryPermitted | functions/funcs_for_agent.py:52-55 | with root `/work`, `../work2/x` resolves to `/work2/x`, which passes the guard although it is not inside `/work` |
| PathGuard.EscapeRejected | functions/funcs_for_agent.py:67-70 | with root `/sandbox`, `../../etc` resolves to `/etc` and is rejected |
| ToolOutput.NatToString | functions/funcs_for_agent.py:23 | `str(n)` is a non-empty run of decimal digits with no leading zero |
| ToolOutput.IntToString | functions/funcs_for_agent.py:82 | `str(code)` starts with `-` exactly for a negative code, followed by the digits of its magnitude |
| ToolOutput.BoolToString | functions/funcs_for_agent.py:23 | `str(is_dir)` is `True` exactly when the entry is a directory and `False` otherwise |
| ToolOutput.NatToStringRoundTrip | functions/funcs_for_agent.py:23 | reading the digits of `str(n)` gives `n` back |
| ToolOutput.IntToStringRoundTrip | functions/funcs_for_agent.py:82 | `str(code)` of a return code parses back to the code, negative ones included |
| ToolOutput.IntToStringInjective | functions/funcs_for_agent.py:82 | different return codes print differently |
| ToolOutput.EntryLine | functions/funcs_for_agent.py:23 | each listing line is non-empty and starts with `-` |
| ToolOutput.Listing | functions/funcs_for_agent.py:18-23 | the listing is empty exactly when there are no entries |
| ToolOutput.ListingAppend | functions/funcs_for_agent.py:19-23 | the listing of two runs of entries is the two listings one after the other |
| ToolOutput.ListingSnoc | functions/funcs_for_agent.py:23 | each loop iteration appends exactly the line of its entry |
| ToolOutput.ListingLineAt | functions/funcs_for_agent.py:19-23 | entry `k` contributes its own line, between the lines of the entries before it and those after it |
| ToolOutput.ListingIsNotEmptyMessage | functions/funcs_for_agent.py:24-25 | no listing can be mistaken for the empty-directory sentence |
| ToolOutput.TranslateNewlines | functions/funcs_for_agent.py:42-43 | a text-mode read never returns `\r`, is never longer than the stored text, and leaves text without `\r` unchanged |
| ToolOutput.TranslateNewlinesAppend | functions/funcs_for_agent.py:42-43 | translation distributes over concatenation whenever the cut does not split a `\r\n` pair, so a text reads as the translation of its pieces |
| ToolOutput.TranslateNewlinesTokens | functions/funcs_for_agent.py:42-43 | `\r\n` and a lone `\r` each read as one `\n`, and every other character reads as itself |
| ToolOutput.TranslateNewlinesExample | functions/funcs_for_agent.py:42-43 | both `a\r\nb` and `a\rb` read back as `a\nb` |
| ToolOutput.Truncate | functions/funcs_for_agent.py:43-45 | content of at most 10000 characters is returned unchanged; longer content becomes its first 10000 characters followed by the literal marker |
| ToolOutput.TruncateKeepsPrefix | functions/funcs_for_agent.py:43-45 | a read keeps the content's first characters and is bounded by 10000 characters plus the marker |
| ToolOutput.ProcessReport | functions/funcs_for_agent.py:80-84 | no output on either stream gives exactly `No output produced.`; otherwise the report starts with both streams, has nothing more exactly when the return code is 0, and otherwise ends with the return-code line |
| ToolOutput.ReportDeterminesExitCode | functions/funcs_for_agent.py:80-84 | a report with some output determines the return code |
| ToolOutput.OutsideError | functions/funcs_for_agent.py:12-13 | the guard's rejection is an `Error:` string |
| ToolOutput.NotADirectoryMessage | functions/funcs_for_agent.py:16 | listing a non-directory gives an `Error:` string |
| ToolOutput.NotAFileMessage | functions/funcs_for_agent.py:40 | reading a non-file gives an `Error:` string |
| ToolOutput.WrittenMessage | functions/funcs_for_agent.py:61 | the success message of a write is not an `Error:` string |
| ToolOutput.ScriptNotFoundMessage | functions/funcs_for_agent.py:74 | running a non-file gives an `Error:` string |
| ToolOutput.NotPythonMessage | functions/funcs_for_agent.py:77 | running a file without `.py` gives an `Error:` string |
| ToolOutput.CaughtMessage | functions/funcs_for_agent.py:62-63 | a caught exception is reported as an `Error:` string |
| ToolOutput.ExecutionFailedMessage | functions/funcs_for_agent.py:86-87 | a failure while running the script is reported as an `Error:` string |
| AgentTools.AncestorsAreDirectories | functions/funcs_for_agent.py:58 | in a well-formed file system every proper ancestor of a stored path is a directory |
| AgentTools.Deepest | functions/funcs_for_agent.py:58 | `os.makedirs` walks up to the deepest existing ancestor; everything below it is missing |
| AgentTools.MissingDirsChain | functions/funcs_for_agent.py:58 | the directories `os.makedirs` creates form a chain from just below the deepest existing ancestor down to the parent |
| AgentTools.DeepestKind | functions/funcs_for_agent.py:58 | the deepest existing ancestor is a regular file exactly when some ancestor is |
| AgentTools.MakeDirsPlan | functions/funcs_for_agent.py:58 | `os.makedirs` fails exactly when some ancestor is a regular file; otherwise it creates a non-empty chain of new directories ending at the parent, inside an existing directory |
| AgentTools.OpenForWriting | functions/funcs_for_agent.py:59 | opening for writing succeeds exactly when the parent is a directory and the target is not one |
| AgentTools.PlanWrite | functions/funcs_for_agent.py:58-59 | a write that goes ahead never targets the root or a directory, creates only directories that did not exist, and either finds the parent directory in place or ends its new chain at the parent |
| AgentTools.WriteRefusedExactly | functions/funcs_for_agent.py:58-60 | a permitted write fails exactly when some proper ancestor of the target is a regular file or the target is a directory |
| AgentTools.MakeDirs | functions/funcs_for_agent.py:58 | after `os.makedirs` exactly the old paths and the new directories exist; each new path is a directory and every other path keeps what it held |
| AgentTools.AddDirectoriesConsistent | functions/funcs_for_agent.py:58 | creating the missing directory chain keeps the file system well formed and its creation order free of duplicates |
| AgentTools.StoreFileConsistent | functions/funcs_for_agent.py:59-60 | writing a regular file in a directory keeps the file system well formed |
| AgentTools.MakeDirsThenOpen | functions/funcs_for_agent.py:58-59 | once `os.makedirs` has succeeded, opening the target succeeds |
| AgentTools.ChildrenIn | functions/funcs_for_agent.py:19 | the entries of a directory are exactly the created paths whose parent it is, and none repeats when no created path repeats |
| AgentTools.FileSystem.Children | functions/funcs_for_agent.py:19 | `os.listdir` gives exactly the stored paths whose parent is the directory, each once |
| AgentTools.FileSystem.ChildrenStored | functions/funcs_for_agent.py:19-22 | every listed entry is stored, non-root, and inside the listed directory |
| AgentTools.FileSystem.ListTarget | functions/funcs_for_agent.py:6-9 | without a directory the working directory itself is listed, and it always passes the guard |
| AgentTools.FileSystem.GetFilesInfo | functions/funcs_for_agent.py:4-26 | rejected by the guard gives the outside error; not a directory gives the not-a-directory error; an empty directory gives the sentence; otherwise one line per entry in listing order |
| AgentTools.FileSystem.DescribeEntries | functions/funcs_for_agent.py:18-23 | the loop builds exactly the listing of the entries |
| AgentTools.FileSystem.GetFileContent | functions/funcs_for_agent.py:30-46 | rejected by the guard gives the outside error; not a regular file gives the not-a-file error; otherwise the file's text as a text-mode read sees it (`\r\n` and a lone `\r` become `\n`), truncated at 10000 characters with the marker |
| AgentTools.FileSystem.WriteFile | functions/funcs_for_agent.py:50-63 | rejected by the guard or failing in the OS: an error and nothing changes; otherwise the missing parents are created, the file holds exactly the new content, every other path keeps its node, and the message counts the characters |
| AgentTools.FileSystem.WriteAt | functions/funcs_for_agent.py:57-60 | the write either raises the planned error with nothing changed, or creates the planned directories and stores the content |
| AgentTools.FileSystem.AddDirectories | functions/funcs_for_agent.py:58 | `os.makedirs` adds the new directories in order and keeps the file system valid |
| AgentTools.FileSystem.StoreFile | functions/funcs_for_agent.py:59-60 | `open(..., 'w').write` replaces the target with the new content and keeps the file system valid |
| AgentTools.FileSystem.WriteThenRead | functions/funcs_for_agent.py:50-61 | a write that reports success followed by a read of the same path gives back the content with its line ends translated, truncated as every read is |
| AgentTools.FileSystem.RunPythonFile | functions/funcs_for_agent.py:65-87 | the checks run in order (guard, regular file, `.py` suffix of the target); the interpreter is invoked exactly when all three pass, and then the result is the report of the run or the failure text |
| AgentTools.RunResult | functions/funcs_for_agent.py:79-87 | a timeout or a failed start gives an `Error:` string; a run with no output gives exactly `No output produced.`; a run with output and a non-zero code ends with the return-code line |
| AgentTools.Shown | functions/funcs_for_agent.py:13-16 | the messages show a given directory as written and a missing one as `None` |
| PathGuard.StartsWith | functions/funcs_for_agent.py:12 | `str.startswith` holds exactly when the prefix is no longer than the string and agrees with it character by character |
| PathGuard.EndsWith | functions/funcs_for_agent.py:76 | `str.endswith` holds exactly when the suffix is no longer than the string and agrees with its last characters one by one |
| AgentTools.FileSystem.IsDir | functions/funcs_for_agent.py:15 | `os.path.isdir` holds for the root of a valid file system, and a directory's parent is a directory |
| AgentTools.FileSystem.IsFile | functions/funcs_for_agent.py:39 | `os.path.isfile` never holds for a directory; in a valid file system a file is never the root and its parent is a directory |
| AgentTools.Parent | functions/funcs_for_agent.py:58 | `os.path.dirname` on locations: the root is its own parent, and any other location's parent is its prefix one component shorter |
| AgentTools.TimeoutDescription | functions/funcs_for_agent.py:79 | the timeout text names the 30-second limit and the script's path, which can be read back from it |

## Left out

- `main.py` is not part of this model. That covers the command line, the environment, the conversation loop, the model client, the tool schemas and the dispatcher.
- AgentTools.FileSystem.RunPythonFile: the real subprocess, its 30-second timer and its working directory are not modelled. How the process ends is a parameter. The script's own effects on the file system are not modelled, so the method changes nothing.
- AgentTools.FileSystem.RunPythonFile: for a timeout or a failed start, only the `Error: executing Python file: ` prefix and the exception's text are modelled. The exact text of the exception is an approximation.
- AgentTools.Describe: the `[Errno …]` texts of the operating-system errors are approximations of Python's. Only the `Error: ` prefix of a caught exception is promised.
- AgentTools.FileSystem.Size: `os.path.getsize` of a regular file is its length in characters, not in UTF-8 bytes. The size of a directory is a fixed value that depends on the file system.
- AgentTools.FileSystem.GetFileContent: the file is taken to be valid UTF-8 text. A decoding error, which would come back as an `Error:` string, is not modelled.
- Permissions, symbolic links, special files, concurrent changes to the file system and any other exception from the operating system are not modelled.
- AgentTools.FileSystem.Children: `os.listdir` order depends on the file system. The model fixes it to creation order.
- PathGuard.GuardAcceptsExactly: the characterisation assumes the working directory and the joined path each start with exactly one `/`. A path starting with exactly two `/` keeps them under `normpath`, which POSIX allows to mean something else.
- AgentTools.MakeDirsPlan: the path in the error of a failing `mkdir` is rendered with a single leading `/`.
