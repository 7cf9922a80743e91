# mygit connector in Dafny

`mygit` is a command-line wrapper that clones, pulls, lists and runs scripts
from private GitHub repositories, using a user name and an access token kept
in `~/.mygit/config.json`. These Dafny modules model its connector, the
`Config` and `GitHubRepo` classes of `mygit.py` and the command handlers.
They prove what each operation does to the file system, which external
commands it issues, and what it returns.

The modules follow the program's layers.

- `Strings` (`strings.dfy`) holds the string operations the connector relies on, with Python's exact semantics:
  - `str.split` with a one-character separator, and `split("/")[-1]`;
  - `sep.join`;
  - `str.replace`, including CPython's left-to-right scan and the empty-pattern case;
  - `str.strip` with the `isspace` character set.
- `Paths` (`paths.dfy`) models POSIX `pathlib`:
  - parsing a string into a root flag and parts;
  - the `/` operator, where an absolute right operand wins;
  - `str()`;
  - `resolve()`, read lexically against the working directory.

  It also proves exactly what the textual containment test of `run_script` guarantees. Every location inside the repository passes it. A location that passes it lies inside the repository, or in a sibling whose name extends the repository's name, and such a sibling does pass.
- `Remote` (`remote.dfy`) covers the remote URLs:
  - the clean clone URL and the authenticated one;
  - how a URL's userinfo is read: the `user:password@` part of the authority (section 3.2.1 of RFC 3986). For a credential that itself holds an `@`, this model reads up to the last `@`; the RFC does not allow a raw `@` there and so does not decide this case;
  - the masking of the token and user name in git's error text.
- `Configuration` (`configuration.dfy`) covers the settings:
  - the three settings, with their defaults;
  - the `Config` class, whose `_config` cache is filled on first access;
  - the lines `show` prints.
- `Host` (`host.dfy`) is the machine, made abstract:
  - a `Disk` of resolved locations (directories, files, executable files, each clone's `origin` URL);
  - a `Machine` class holding the working directory, the disk, and a log of every external action (rmtree, mkdir, git clone, git remote set-url, git pull, printed clone error, chmod, process start).

  Its methods are the file-system and subprocess primitives the connector calls.
- `Connector` (`connector.dfy`) describes each operation of `GitHubRepo` by a function: `CloneSpec`, `PullSpec`, `RunScriptSpec`, `ListReposSpec`.
  - Each function maps the disk, the working directory, the settings and the outside world's replies to an `Outcome`: the new disk, the actions performed, and the returned value.
  - Lemmas state the properties of those functions.
  - The `GitHubRepo` class performs the same steps one call at a time on a `Machine`. Each of its methods is proved to leave exactly the disk, log and result that its function gives.
  - The `cmd_*` handlers map those results to exit codes.

Whatever the outside world answers is an argument: whether `rmtree` raises,
how `git clone`, `git remote set-url` and `git pull` end, what a clone
checks out, the line typed at the prompt or end of input, how the script's
process ends, and the entries `iterdir` yields. The home directory and the
working directory are arguments as well.

## Model

| member | source | states |
|---|---|---|
| Strings.LastPiece | mygit.py:100 | `repo_path.split("/")[-1]`: the last of the pieces `Split` gives; `LastPieceAfterSep` proves it is whatever follows the last `/` |
| Strings.Split | mygit.py:100 | `split` always yields at least one piece, and no piece holds the separator |
| Strings.SplitJoin | mygit.py:100 | splitting the join of separator-free parts gives back exactly those parts |
| Strings.LastPieceAfterSep | mygit.py:100 | `split("/")[-1]` of `prefix + "/" + name` is `name`, whatever the prefix |
| Strings.FirstIndex | mygit.py:100 | the first occurrence of a character: it is there, and not before |
| Strings.Replace | mygit.py:151-152 | `str.replace`: every match of a non-empty `target`, leftmost first and not overlapping, replaced by `repl`; for an empty `target`, `repl` between and around all characters. `ReplaceRemoves` and `ReplaceKeepsAbsent` state what the masking relies on |
| Strings.FindFrom | mygit.py:151-152 | the search `replace` makes is for the leftmost match at or after the start, and `None` means no match at all |
| Strings.ReplaceRemoves | mygit.py:151-152 | after `replace(pat, mask)` no occurrence of a non-empty `pat` is left, when `pat` shares no character with the mask |
| Strings.ReplaceKeepsAbsent | mygit.py:152 | a replacement by a mask sharing no character with `sub` never creates an occurrence of `sub` |
| Strings.LeadingSpace | mygit.py:265 | the leading run that `strip` removes is all white space and is maximal |
| Strings.TrailingSpace | mygit.py:265 | the trailing run that `strip` removes is all white space and is maximal |
| Strings.Strip | mygit.py:265 | `str.strip()`: the slice between the maximal white-space runs that `LeadingSpace` and `TrailingSpace` characterise |
| Strings.StripTrims | mygit.py:265 | what `strip()` keeps is empty, or begins and ends with a non-space |
| Paths.KeepParts | mygit.py:67 | parsing keeps only good parts: no empty part, no `.`, no `/`; a list of good parts is kept as it is |
| Paths.Parse | mygit.py:67 | `Path(s)` has well-formed parts and is absolute exactly when `s` starts with `/` |
| Paths.Join | mygit.py:101 | `p / rel` is `Path(rel)` when `rel` is absolute, otherwise `p` with the parts of `rel` appended |
| Paths.Str | mygit.py:144 | `str(p)`: `/` and the parts joined by `/` for an absolute path, `.` for an empty relative one; `ParseStr` proves parsing it gives `p` back |
| Paths.ParseStr | mygit.py:67 | `Path(str(p)) == p` for every well-formed path |
| Paths.Normalize | mygit.py:251-252 | a resolved location holds no `..`, and good parts stay good |
| Paths.Resolve | mygit.py:251-252 | `p.resolve()`: the location of the parts, read from the root for an absolute path or from the working directory, each `..` removing the part before it |
| Paths.NormalizeDescends | mygit.py:251-252 | resolving further parts without `..` appends them to the resolved location |
| Paths.JoinPart | mygit.py:101 | joining one good part appends it |
| Paths.ResolvePart | mygit.py:251-252 | `(p / name).resolve()` is `p.resolve()` followed by `name`, for a good part other than `..` |
| Paths.NormalizeResolved | mygit.py:251 | resolving a location without `..` leaves it unchanged |
| Paths.JoinedDescendantIsWithin | mygit.py:239-252 | a relative script path without `..` resolves inside the repository directory |
| Paths.PrefixCheck | mygit.py:253 | the test `str(script).startswith(str(repo))` on the resolved locations, as text |
| Paths.WithinPassesPrefixCheck | mygit.py:253 | every location inside the directory passes `str(script).startswith(str(repo))` |
| Paths.InExtendedSibling | mygit.py:253 | the locations that pass the textual test without being inside: those in a sibling whose last part begins with the root's last part and differs from it |
| Paths.ConcatWellFormed | mygit.py:251-252 | good parts followed by good parts are good |
| Paths.JoinWellFormed | mygit.py:239 | the `/` operator keeps the parts good |
| Paths.ResolveWellFormed | mygit.py:251-252 | resolving good parts against a good working directory gives good parts |
| Paths.JoinPrefix | mygit.py:253 | when one `/`-join of good parts begins with another, the parts agree up to the shorter's last part, and there one begins with the other |
| Paths.PrefixCheckSound | mygit.py:253 | a location that passes `str(script).startswith(str(repo))` lies inside the root or in a sibling with an extended name |
| Paths.SiblingPassesPrefixCheck | mygit.py:253 | a sibling whose name extends the directory's last part passes the same test, yet lies outside the directory |
| Remote.CloneUrl | mygit.py:169 | `https://github.com/<repo>.git`, built at lines 90 and 169; `CloneUrlHasNoUserInfo` proves it carries no credentials |
| Remote.AuthUrl | mygit.py:138 | `https://<user>:<token>@github.com/<repo>.git`; `AuthUrlCredentials` and `AuthUrlStripsToCloneUrl` read it back |
| Remote.AuthorityLength | mygit.py:138 | the authority runs up to the first `/`, `?` or `#` |
| Remote.LastIndex | mygit.py:138 | the last occurrence of a character, or none |
| Remote.ReadUrl | mygit.py:138 | a URL built as scheme, authority, `/` and path is read back with exactly that authority |
| Remote.CloneUrlHasNoUserInfo | mygit.py:169 | the clean URL `https://github.com/<repo>.git` has no userinfo, whatever `<repo>` holds, and stripping userinfo leaves it as it is |
| Remote.ReadUserInfo | mygit.py:138 | a URL whose authority is `info@host` has userinfo `info`, and stripping it leaves `https://host/...` |
| Remote.AuthUrlStripsToCloneUrl | mygit.py:138 | the authenticated URL's userinfo is `user:token`, and deleting it gives exactly the clean URL set at line 169 |
| Remote.AuthUrlCredentials | mygit.py:138 | the authenticated URL carries exactly the configured user name and token |
| Remote.ScrubError | mygit.py:151-152 | the token replaced by `***`, then the user name; `ScrubHidesToken` and `ScrubHidesUser` prove neither is left |
| Remote.ScrubHidesToken | mygit.py:151-152 | the printed error text holds no occurrence of a non-empty token without `*` |
| Remote.ScrubHidesUser | mygit.py:152 | nor any occurrence of a non-empty user name without `*` |
| Configuration.SettingsOf | mygit.py:48-67 | the three properties for a file's contents: `github_username` and `github_token` or `""`, and `Path` of `clone_directory` or of `str(home / "mygit-repos")` |
| Configuration.DefaultCloneDirectory | mygit.py:67 | `str(Path.home() / "mygit-repos")` |
| Configuration.MissingEntriesDefaults | mygit.py:48-67 | a file with none of the three entries gives the user name `""`, the token `""` and the clone directory `~/mygit-repos` |
| Configuration.DefaultIsJoin | mygit.py:67 | `Path.home() / "mygit-repos"` appends that one part to the home directory |
| Configuration.DefaultCloneDirectoryUnderHome | mygit.py:62-67 | without a `clone_directory` entry, the clone directory is `~/mygit-repos`, and converting it to text and back loses nothing |
| Configuration.Repeat | mygit.py:75-79 | `c * n` has length `n` and is `c` throughout |
| Configuration.ShowLines | mygit.py:74-79 | the six lines `show` prints: the heading, a rule of 40 dashes, the user name, the token as 16 asterisks, the clone directory and the rule again |
| Configuration.ShowIgnoresToken | mygit.py:69-79 | what `show` prints does not depend on the token |
| Configuration.Config.constructor | mygit.py:24-27 | a new configuration manager has an empty cache |
| Configuration.Config.Load | mygit.py:29-46 | `load` fills the cache with the file's contents and returns them |
| Configuration.Config.Ensure | mygit.py:51-52 | the file is loaded on first access; a filled cache is left alone |
| Configuration.Config.Username | mygit.py:48-53 | the `github_username` entry, or `""` |
| Configuration.Config.Token | mygit.py:55-60 | the `github_token` entry, or `""` |
| Configuration.Config.CloneDirectory | mygit.py:62-67 | `Path` of the `clone_directory` entry, or of `~/mygit-repos` |
| Configuration.Config.Show | mygit.py:69-79 | the six lines `show` prints for the stored settings, with the token masked |
| Host.NoExecutionPrepend | mygit.py:121-164 | a step that runs no script, put before steps that run none, runs none |
| Host.Removed | mygit.py:125 | after `rmtree(l)` exactly what was outside `l` is left |
| Host.WithParents | mygit.py:135 | after `mkdir(parents=True, exist_ok=True)` the directory and every ancestor exist |
| Host.Cloned | mygit.py:143-147 | a clone leaves the directory, its `.git` and an `origin` set to the URL it was cloned from |
| Host.Machine.Exists | mygit.py:121 | `p.exists()`: something is at the location `p` resolves to (lines 121, 192, 233, 241, 294, 298) |
| Host.Machine.IsDir | mygit.py:298 | `p.is_dir()`: a directory is at the location `p` resolves to |
| Host.Machine.IsFile | mygit.py:245 | `p.is_file()`: a regular file is at the location `p` resolves to |
| Host.Machine.RemoveTree | mygit.py:124-128 | `rmtree` is logged, and removes the tree only when it does not raise |
| Host.Machine.MakeDirs | mygit.py:135 | `mkdir` is logged and creates the missing ancestors |
| Host.Machine.RunGitClone | mygit.py:143-147 | `git clone <url> <dest>` is logged, and only an exit code of 0 leaves a clone |
| Host.Machine.RunGitSetUrl | mygit.py:170-175 | `git remote set-url` is logged and changes `origin` only when it succeeds |
| Host.Machine.RunGitPull | mygit.py:200-205 | `git pull` is logged and changes nothing that is modelled |
| Host.Machine.Report | mygit.py:153 | the printed clone error is logged |
| Host.Machine.MakeExecutable | mygit.py:273 | `chmod 0o755` is logged and marks the file executable |
| Host.Machine.Spawn | mygit.py:284 | the child process is logged with its argv and working directory |
| Connector.RepoDir | mygit.py:98-101 | `clone_directory / repo_path.split("/")[-1]`; `RepoDirShape` states its shape |
| Connector.RepoDirShape | mygit.py:98-101 | the repository directory is the clone directory plus the reference's last `/`-piece; that piece holds no `/`, and an empty or `.` piece adds nothing |
| Connector.RepoDirCollision | mygit.py:100-101 | `a/x` and `b/x` share one directory |
| Connector.RepoDirOfEmptyName | mygit.py:100-101 | `owner/` names the clone directory itself |
| Connector.FreshClone | mygit.py:134-164 | the second action is `git clone` with the authenticated URL. The result is a directory exactly when git exited with 0. On success the clone and its `.git` exist, and `origin` is the clean URL if `set-url` succeeded, the authenticated one if not |
| Connector.FreshCloneActions | mygit.py:149-153 | a fresh clone runs no script, and the only text it prints is git's standard error with the credentials masked |
| Connector.CloneSpec | mygit.py:103-164 | each branch of `clone`, as listed after this table |
| Connector.CloneAt | mygit.py:118-164 | the same guarantees once the reference is accepted, for the directory `dir` |
| Connector.CloneAtMasks | mygit.py:149-153 | every error text `clone` prints is git's standard error with token and user name replaced by `***` |
| Connector.CloneErrorHidesToken | mygit.py:149-153 | no error text `clone` prints contains the token |
| Connector.CloneSanitizesOrigin | mygit.py:156-175 | after a clone that ran and whose `set-url` succeeded, `origin` is the clean URL, and it has no userinfo |
| Connector.UnsanitizedOriginKeepsToken | mygit.py:176-178 | when `set-url` fails, `clone` still succeeds and `origin` still carries the user name and token |
| Connector.SameNameSharesClone | mygit.py:118-132 | once `a/x` is cloned, `clone b/x` returns that clone and issues no command |
| Connector.ForcedEmptyNameRemovesCloneDirectory | mygit.py:118-125 | `clone owner/ --force` starts by removing the whole clone directory |
| Connector.PullSpec | mygit.py:180-216 | `pull` never changes the modelled disk. A missing directory gives `False` and no command. The result is `True` exactly when the directory exists and `git pull` exited with 0 |
| Connector.Confirmed | mygit.py:261-270 | the reply counts as yes when it is present and strips to `y` or `Y`; end of input counts as `n` |
| Connector.ScriptLoc | mygit.py:239-251 | `(repo_dir / script_path).resolve()` |
| Connector.MayRun | mygit.py:239-268 | every check before the script is touched: a regular file, the textual containment test, and `--yes` or a confirmed prompt |
| Connector.ChildCode | mygit.py:283-288 | the child's exit code, or 1 when starting it raised `SubprocessError` |
| Connector.EnsureClone | mygit.py:231-236 | an existing directory is used as it is, and a missing one is cloned without `--force`; neither runs a script |
| Connector.RunIn | mygit.py:238-288 | the checks, then the script's run, as listed after this table |
| Connector.RunScriptSpec | mygit.py:218-288 | `run_script`: the clone step, then the checks and the run in the directory it gives; `RunScriptGuards` states what it guarantees |
| Connector.RunAfter | mygit.py:233-288 | after the clone step, 1 when it gave no directory, otherwise the checks and the run in that directory, the actions of both steps in order |
| Connector.RunScriptGuards | mygit.py:231-288 | `run_script` as a whole, as listed after this table |
| Connector.RunScriptContainment | mygit.py:249-285 | a script that `run_script` makes executable or runs lies inside the repository directory or in a sibling whose name extends it, and nowhere else |
| Connector.CheckedScriptRuns | mygit.py:238-288 | in an existing clone, a script that passes every check is made executable and run with its arguments in the clone, and its exit code is returned |
| Connector.ScriptInsideRepoRuns | mygit.py:239-285 | a regular file reached without `..` lies inside the repository, passes the containment test, and with `--yes` is run, returning its exit code |
| Connector.ParseUpAndOver | mygit.py:239 | `../<sib>/<file>` parses into the parts `..`, `<sib>`, `<file>` |
| Connector.NormalizeUpAndOver | mygit.py:251 | going up one part and down two lands in the sibling directory |
| Connector.ResolveUpAndOver | mygit.py:251 | from a repository at `parent/name`, `../<sib>/<file>` resolves to `parent/<sib>/<file>` |
| Connector.SiblingName | mygit.py:251-253 | `<name><extra>` is a part resolution keeps |
| Connector.SiblingLoc | mygit.py:249-255 | `../<name><extra>/<file>` resolves outside the repository `parent/<name>`, yet passes the containment test |
| Connector.SiblingScriptRuns | mygit.py:249-285 | when the repository and its sibling are directories, such a script in the sibling is run with `--yes`, and its exit code is returned |
| Connector.IsClone | mygit.py:298 | the test of the comprehension: `d.is_dir() and (d / ".git").exists()` for the entry `d` |
| Connector.Clones | mygit.py:298 | the comprehension keeps at most as many entries as are listed, each a listed entry that is a directory holding `.git`; `ClonesStep` shows it filters the listing in order |
| Connector.ListReposSpec | mygit.py:290-298 | a missing clone directory gives `[]` |
| Connector.ClonesStep | mygit.py:298 | one more entry extends the result by that entry or by nothing |
| Connector.ResolveEntry | mygit.py:298 | `clone_dir / name` and `clone_dir / name / ".git"` resolve to the entry and its `.git` |
| Connector.ClonesExactly | mygit.py:298 | an entry is returned if and only if it is listed, is a directory, and holds `.git` |
| Connector.ListReposExactly | mygit.py:290-298 | `list_repos` returns exactly the subdirectories of an existing clone directory that hold `.git`, and nothing when the directory is missing |
| Connector.RepoEntry | mygit.py:101 | a repository directory with a plain name is that entry of the clone directory |
| Connector.ListedClone | mygit.py:298 | a listed entry whose repository directory holds `.git` is returned |
| Connector.ClonedIsListed | mygit.py:298 | a repository that `clone` just fetched under a plain name is returned by a later `list_repos` |
| Connector.GitHubRepo.constructor | mygit.py:85-86 | the manager keeps the configuration it is given |
| Connector.GitHubRepo.BuildCloneUrl | mygit.py:88-90 | `https://github.com/<repo>.git`, a URL without userinfo |
| Connector.GitHubRepo.GetRepoDir | mygit.py:98-101 | the repository directory for the configured clone directory, loading the configuration if needed |
| Connector.GitHubRepo.SanitizeRemoteUrl | mygit.py:166-178 | `set-url origin` with the clean URL is issued; `origin` changes only when it succeeds, and a failure is ignored |
| Connector.GitHubRepo.Clone | mygit.py:103-164 | leaves exactly the disk, log and result `CloneSpec` gives |
| Connector.GitHubRepo.CloneInto | mygit.py:134-164 | leaves exactly the disk, log and result `FreshClone` gives |
| Connector.GitHubRepo.StartClone | mygit.py:134-147 | `mkdir` of the clone directory, then `git clone` with the configured credentials, and the disk those two leave |
| Connector.GitHubRepo.Pull | mygit.py:180-216 | leaves exactly what `PullSpec` gives |
| Connector.GitHubRepo.RunScript | mygit.py:218-288 | leaves exactly what `RunScriptSpec` gives |
| Connector.GitHubRepo.EnsureCloned | mygit.py:231-236 | leaves exactly what `EnsureClone` gives |
| Connector.GitHubRepo.RunReady | mygit.py:235-288 | after the clone step, exit code 1 if it failed, else what `RunIn` gives |
| Connector.GitHubRepo.RunFrom | mygit.py:238-288 | leaves exactly what `RunIn` gives |
| Connector.GitHubRepo.CheckScript | mygit.py:239-258 | the script's resolved location, and whether it is a regular file passing the containment test |
| Connector.GitHubRepo.Launch | mygit.py:272-288 | `chmod 0o755`, then the run with the script's resolved path and the arguments in the clone; the exit code is the child's, or 1 |
| Connector.GitHubRepo.ListRepos | mygit.py:290-298 | returns exactly what `ListReposSpec` gives |
| Connector.GitHubRepo.CollectClones | mygit.py:298 | the loop's result is the comprehension `Clones` over the listing |
| Connector.GitHubRepo.HoldsClone | mygit.py:298 | `d.is_dir() and (d / ".git").exists()` |
| Connector.CmdClone | mygit.py:315-319 | exit code 0 exactly when `clone` returns a directory, else 1, after `clone`'s effects |
| Connector.CmdPull | mygit.py:322-326 | exit code 0 exactly when `pull` succeeds, else 1 |
| Connector.CmdRun | mygit.py:329-332 | the exit code is `run_script`'s, after its effects |
| Connector.CmdList | mygit.py:335-339 | exit code 0, and the result of `list_repos` |
| Connector.CmdConfig | mygit.py:342-345 | exit code 0, and the lines `show` prints |

`Connector.CloneSpec` states each branch of `clone`:

- A reference without `/` changes nothing and returns `None`.
- An existing destination without `--force` is returned untouched, and no command runs.
- If a forced removal fails, the removal is the only action, and the result is `None`.
- A git command runs exactly when the destination was free or has been removed.
- No script is ever run.
- On success the directory is present, and, when git ran, its `.git` is too.

`Connector.RunIn` states the checks of `run_script`, then the script's run:

- Until every check passes, nothing changes and nothing is logged.
- A script that passes them is made executable, then run with its resolved path and the arguments, with the clone as working directory. The disk change is the executable bit only, and the code is the child's.
- When the checks do not pass, a declined prompt gives 0, and a failed check gives 1.

`Connector.RunScriptGuards` states `run_script` as a whole:

- If the clone step fails, the code is 1 and nothing is run.
- A script runs only if it passed every check in the clone's directory, and then the child's code is returned.
- Otherwise the code is 0 or 1, and 0 means the prompt was declined.

## Left out

- Printing. The messages are left out, except git's masked clone error, which is kept as an action because it is what the token must not appear in. The prompt's text is not modelled either; the reply typed at it is an input.
- The error returned when the configuration file is missing (mygit.py:31-34), which calls `sys.exit`.
- JSON decoding and its errors (mygit.py:36-44). The file is given as a map from strings to strings, so non-string JSON values are not represented.
- `main` and argument parsing (mygit.py:348-406). The handlers take their arguments already parsed.
- `_get_git_env` (mygit.py:92-96). Nothing calls it, and it only copies `os.environ`.
- `resolve()` does not follow symbolic links. It is modelled lexically: each `..` removes the part before it.
- `Host.Machine.Exists`, `Host.Machine.IsDir` and `Host.Machine.IsFile` decide `exists()`, `is_dir()` and `is_file()` at the lexically resolved location. The operating system walks the path part by part instead: a part followed by `..` must exist and be a directory. So the model finds a path such as `<repo>/m/../b.sh` where `<repo>/m` is missing or is a file, and the source does not. For `run o/x m/../b.sh --yes` the model then runs `b.sh`, whereas the source reports 1 at mygit.py:241-243. For `clone o/..`, whose directory is the clone directory plus `..`, the model returns the clone directory's parent untouched, whereas the source, finding nothing when the clone directory is missing, goes on to `mkdir` and `git clone` at mygit.py:135-147.
- `Host.Machine.MakeDirs` creates only the ancestors of the lexically resolved location. The operating system's `mkdir(parents=True)` also creates the directories named before a `..`.
- The `OSError` and `ValueError` that `resolve()` can raise (mygit.py:256-258) have no counterpart, as the lexical reading cannot fail.
- `Paths.Parse` reads a leading `//` as a single `/`, although POSIX `pathlib` keeps it.
- Exceptions the source does not catch are not modelled:
  - `FileNotFoundError` when `git` is missing;
  - `mkdir` onto an existing file;
  - `iterdir` on a clone directory that is a file;
  - `chmod` failing;
  - a script that cannot be executed, for example one without an interpreter line.

  Only `subprocess.SubprocessError` is modelled as a way a subprocess can end.
- A failed `rmtree` is modelled as removing nothing. Python can leave a tree partly removed.
- What `git pull` does to the working tree. The disk of the model records only directories, files, modes and `origin`. The standard output and standard error of `pull` are only printed.
- `Connector.Confirmed` models `strip().lower() == 'y'` by accepting `y` and `Y` after strip. Those are the only strings that `lower()` maps to `y`, but `lower()` itself is not modelled.
- The process's exit status is the handler's code reduced modulo 256. The codes are kept as unbounded integers, and a negative code for a signal is passed on as it is.
- The sorted printing of `list_repos` (mygit.py:300-310) is left out. The returned list is in `iterdir` order, and that order is an input.
- The message at mygit.py:194 lacks its `f` prefix, so it prints `{repo_path}` literally. This is a printing defect only, and printing is not modelled.
- `clone` does not call `_build_clone_url`; it builds the same clean URL inline at mygit.py:169. `BuildCloneUrl` is modelled on its own.
- `git clone` receives the token on its command line (mygit.py:138-147), so the token is visible to other processes. The model records this argv as an action; it does not model process listings.
- Behaviours of the source that the model keeps as they are:
  - `clone` returns an existing destination as success (mygit.py:121-132);
  - a failed `set-url` is swallowed, so `origin` can keep the token (mygit.py:176-178);
  - `pull` runs `git pull` with no credentials (mygit.py:200-205);
  - the configuration file is only read (mygit.py:29-46);
  - the `subprocess.run` calls have no time-out (mygit.py:143-147, 200-205, 284), and time is not modelled.
- `Paths.SiblingPassesPrefixCheck`, `Connector.SiblingLoc` and `Connector.SiblingScriptRuns` state the containment test of mygit.py:253 as written. The test is a textual prefix check. A directory named like the repository plus a suffix passes it, so the model does not promise that a run script lies inside the repository. Its promise, proved by `Connector.RunScriptContainment`, is the test's exact guarantee: the script lies inside the repository, or in such a sibling.
