# wrapsync2 command construction, in Dafny

wrapsync2 is a small wrapper around `rsync`. From a JSON configuration
(`username`, `domain`, `local-path`, `remote-path`, `flags`, `exclude`) and
the command line `wrapsync2.py <push|pull> <dir_name|all> [rsync options]`
it builds one rsync argument vector and runs it. This project models the
part that decides what that vector is:

- `PosixPath` (`posix_path.dfy`): the POSIX `dirname` the script uses to reach
  a parent directory. It takes the path up to its last `/` and strips the
  trailing slashes, unless that part is only slashes. A path with no `/`
  gives `""`.
- `Wrapsync` (`wrapsync2.dfy`): the configuration and argument records; the
  remote address `username@domain:path`; the four `(action, dir_name == "all")`
  cases of path resolution; the single brace-set exclude token
  `--exclude={'p1','p2'}`; the command `rsync [-flags] <exclude> <options…> <from> <to>`;
  and validation of the argument vector into parsed arguments, a help
  request or a usage error.
- `Text` (`text.dfy`): first-occurrence search and ASCII lower-casing.
- `Scenarios` (`scenarios.dfy`): two complete command lines for one example
  configuration.

`get_rsync_command` and `build_exclude_option` grow a list and a string in
loops. They are methods with loops, proved equal to the specification
functions `RsyncCommand` and `ExcludeOption`. The properties of those
functions are lemmas. Everything else is a function. Every operation is
deterministic, so calling one twice with the same inputs gives the same
result by construction.

Where the code and its documentation differ, the model follows the code:

- The remote address always has the form `username@domain:path`. The code
  reads `config['domain']` unconditionally (`wrapsync2.py:128`), so there is
  no domain-less `username@path` form. `tests/test_wrapsync2.py` expects that
  form and uses the keys `local-dir-path`/`remote-dir-path`, which the code
  never reads. Those tests do not describe this code.
- An exclude token is always emitted, even when no pattern is configured
  (`--exclude={}`). It is one brace-set token, not one token per pattern.
- `get_paths` compares the action with `"push"` only. Any other action string
  resolves as a pull. `parse_argv` lets only `push` and `pull` through.
- The parent of a single-segment path is `""` (`DirnameOfSegment`). A pull of
  `all` with `local-path = "proj"` therefore has `""` as its destination. A
  push of `all` with `remote-path = "proj"` targets `user@host:`, which is the
  remote home directory.
- A configured path that ends with a slash is not reduced to its parent
  (`TrailingSlashKeepsDirectory`). `dirname("remote/dir/path/")` is
  `remote/dir/path`, so the destination of syncing `all` is then the
  configured directory itself rather than the directory above it. The model
  reproduces this behaviour of the code.

## Model

| member | source | states |
|---|---|---|
| PosixPath.Dirname | wrapsync2.py:127-139 | the parent is a prefix of the path up to its last `/`, and only slashes lie between the two; it is empty exactly when the path has no `/`; it ends without `/` unless it is made only of slashes |
| PosixPath.DirnameSlashCases | wrapsync2.py:127-139 | `a//b` has parent `a`, `/b` has parent `/`, `a/b//` has parent `a/b` |
| PosixPath.DirnameOfTrailingSlash | wrapsync2.py:127-139 | a path `dir/` ending with one slash has `dir` itself as its parent |
| PosixPath.DirnameOfJoin | wrapsync2.py:99-109 | the parent of `parent/leaf` (one-segment leaf, parent non-empty and without a trailing slash) is `parent` |
| PosixPath.DirnameOfSegment | wrapsync2.py:139 | a path without `/` has `""` as its parent |
| PosixPath.DirnameOfRoot | wrapsync2.py:139 | a path made only of slashes is its own parent |
| Text.Lower | wrapsync2.py:62 | the lower-cased action has the same length and every character lower-cased |
| Wrapsync.BuildRemotePath | wrapsync2.py:119-128 | the address starts with `username@domain:`, its path part is a prefix of `remote-path`, and equals it when the parent is not asked for, and is the parent of `remote-path` when it is |
| Wrapsync.RemoteAddressRoundTrip | wrapsync2.py:128 | the address splits back into username, domain and path when the username has no `@` and the domain no `:` |
| Wrapsync.BuildLocalPath | wrapsync2.py:131-139 | the result is a prefix of `local-path`, equal to it without `is_parent`; with `is_parent` it is the parent of `local-path`, empty exactly when `local-path` has no `/` |
| Wrapsync.GetPaths | wrapsync2.py:89-116 | the four `(action == "push", dir_name == "all")` cases: a push of `all` goes from `local-path` to the remote parent of `remote-path`; a push of a name goes from `local-path/name` to the remote `remote-path`; a pull of `all` goes from the remote `remote-path` to the parent of `local-path`; a pull of a name goes from the remote `remote-path/name` to `local-path` |
| Wrapsync.NonPushIsPull | wrapsync2.py:99-112 | every action other than `push` resolves exactly as `pull` |
| Wrapsync.PushAllTargetsParent | wrapsync2.py:99-102 | pushing `all` of a remote `parent/leaf` (non-empty `leaf`) keeps the local source whole and targets the remote `parent` |
| Wrapsync.PullAllTargetsParent | wrapsync2.py:106-109 | pulling `all` into a local `parent/leaf` (non-empty `leaf`) keeps the remote source whole and targets the local `parent` |
| Wrapsync.TrailingSlashKeepsDirectory | wrapsync2.py:99-109 | with `remote-path = dir/` a push of `all` targets the remote `dir` itself, and with `local-path = dir/` a pull of `all` targets the local `dir` itself |
| Wrapsync.ExcludeOption | wrapsync2.py:165-176 | the token starts with `--exclude={`, ends with `}`, and is `--exclude={}` exactly when there are no patterns |
| Wrapsync.JoinQuotedSnoc | wrapsync2.py:172-174 | appending a pattern adds a comma unless it is the first, then the pattern in single quotes |
| Wrapsync.BuildExcludeOption | wrapsync2.py:165-176 | the accumulated token equals `ExcludeOption` of the patterns |
| Wrapsync.ExcludeOptionRoundTrip | wrapsync2.py:171-176 | the token gives back every pattern in order when no pattern contains a single quote |
| Wrapsync.QuoteInPatternIsAmbiguous | wrapsync2.py:174 | without escaping, the pattern `a','b` and the two patterns `a`, `b` give the same token |
| Wrapsync.GetRsyncCommand | wrapsync2.py:142-162 | the appended tokens equal `RsyncCommand`: rsync, the flags cluster if any, the exclude token, the options, from, to |
| Wrapsync.CommandLayout | wrapsync2.py:149-161 | `rsync` first; `-flags` at index 1 exactly when flags are non-empty; one exclude token next; the options verbatim and in order; `from` and `to` last; length 1, plus 1 with flags, plus 1, plus the number of options, plus 2 |
| Wrapsync.ParseArgv | wrapsync2.py:53-74 | a parsed result has action `push` or `pull`, and the argument vector is the program name, the action, the directory and the options |
| Wrapsync.ActionsAreNotHelp | wrapsync2.py:62-65 | `push` and `pull` do not lower-case to a help alias |
| Wrapsync.ParseArgvOutcomes | wrapsync2.py:59-74 | each outcome holds exactly for its inputs: no action; help (alias matched ignoring case); any other action that is not exactly `push`/`pull`; no directory; parsed |
| Wrapsync.ParseArgvRoundTrip | wrapsync2.py:61-73 | arguments with a valid action, written out as an argument vector, validate back to themselves |
| Wrapsync.ParseArgvCase | wrapsync2.py:62-66 | `HELP` and `-H` ask for help; `PUSH` is an invalid action |
| Scenarios.ExampleExcludeToken | wrapsync2.py:165-176 | the patterns `node_modules`, `*.jar` give `--exclude={'node_modules','*.jar'}` |
| Scenarios.PushNamedDirectory | wrapsync2.py:142-162 | the complete command for pushing `directory_name` with the example configuration |
| Scenarios.PullAll | wrapsync2.py:142-162 | the complete command for pulling `all` with two pass-through options and the example configuration |

## Left out

- `main`, `get_config` and the module globals for the configuration path (`wrapsync2.py:38-50, 77-86`): they read the file system, load JSON and inspect the process's own path. The model takes the configuration as a value with all six fields present.
- `execute_rsync` (`wrapsync2.py:179-196`): it runs rsync as a subprocess, handles the keyboard interrupt and prints to the console.
- rsync's own reading of a trailing `/` on a source (it copies the directory's contents rather than the directory) and the resulting layout on disk are not modelled; the model states only which paths the command names.
- How rsync reads the exclude token is not modelled. The token is passed as one argument with no shell, so no brace expansion takes place. `SplitRemote` models only how an address splits into user, host and path.
- `utils.py`: coloured console output, the clock and the process exit. `raise_error`, `usage()` and `sys.exit` inside `parse_argv` become the outcomes `UsageError` (exit status 1, usage printed) and `Help` (exit status 0).
- Text.Lower: folds ASCII letters only, while Python's `str.lower` covers all of Unicode. No non-ASCII character lower-cases to `h`, `e`, `l` or `p`, so help detection for the four aliases is the same.
- `tests/test_usage.py` checks only the process exit code of `raise_error`.
- The domain-less remote form expected by `tests/test_wrapsync2.py`: the code does not implement it.
