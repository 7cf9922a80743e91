/** The repository connector: where a reference `owner/repo` is cloned,
    what `clone`, `pull`, `run_script` and `list_repos` do to the machine and
    return, and the exit codes of the command handlers. Each operation is
    described by a function from the machine's state and the outside world's
    replies to the new disk, the actions performed and the result; the
    `GitHubRepo` methods perform the same steps one at a time on a `Machine`
    and are proved to agree with those functions. */
module Connector {
  import opened Strings
  import opened Paths
  import opened Remote
  import opened Configuration
  import opened Host

  // ---------------------------------------------------------------------------
  // Where a repository goes

  /** `_get_repo_dir`: the clone directory joined with the last `/`-piece of the reference. */
  function RepoDir(cloneDir: Path, repoPath: string): Path {
    Join(cloneDir, LastPiece(repoPath, '/'))
  }

  /** The directory is the clone directory with the reference's last piece
      appended; that piece holds no `/`, and when it is empty or `.` nothing is appended. */
  lemma RepoDirShape(cloneDir: Path, repoPath: string)
    ensures '/' !in LastPiece(repoPath, '/')
    ensures var name := LastPiece(repoPath, '/');
      RepoDir(cloneDir, repoPath) ==
        if name == "" || name == "." then cloneDir
        else Path(cloneDir.absolute, cloneDir.parts + [name])
  {
    var name := LastPiece(repoPath, '/');
    SplitNoSep(name, '/');
    if name == "" || name == "." {
      assert Parse(name).parts == [];
      assert cloneDir.parts + [] == cloneDir.parts;
    } else {
      assert Parse(name).parts == [name];
    }
  }

  /** Only the last piece matters: `a/x` and `b/x` share one directory. */
  lemma RepoDirCollision(cloneDir: Path, ownerA: string, ownerB: string, name: string)
    requires '/' !in name
    ensures RepoDir(cloneDir, ownerA + "/" + name) == RepoDir(cloneDir, ownerB + "/" + name)
  {
    LastPieceAfterSep(ownerA, '/', name);
    LastPieceAfterSep(ownerB, '/', name);
  }

  /** `owner/` names the clone directory itself. */
  lemma RepoDirOfEmptyName(cloneDir: Path, owner: string)
    ensures RepoDir(cloneDir, owner + "/") == cloneDir
  {
    LastPieceAfterSep(owner, '/', "");
    assert owner + "/" == owner + ['/'] + "";
    RepoDirShape(cloneDir, owner + "/");
  }

  // ---------------------------------------------------------------------------
  // What the outside world answers

  /** The replies of the outside world during one command: whether `rmtree`
      succeeds, how `git clone` ends and what it checks out, whether
      `git remote set-url` succeeds, the line typed at the prompt (`None` on
      end of input), and how the script's process ends. */
  datatype Replies = Replies(
    removeOk: bool,
    clone: GitRun,
    tree: Tree,
    setUrlOk: bool,
    answer: Option<string>,
    child: ChildRun)

  /** The state an operation leaves, what it did, and what it returns. */
  datatype Outcome<T> = Outcome(disk: Disk, actions: seq<Action>, result: T)

  // ---------------------------------------------------------------------------
  // clone

  /** The part of `clone` from `mkdir` on, once the destination is free:
      the actions performed and what is returned. */
  function FreshClone(d: Disk, cwd: Loc, s: Settings, repoPath: string, dir: Path,
                      rep: Replies): (o: Outcome<Option<Path>>)
    ensures |o.actions| >= 2 && o.actions[1] == GitClone(AuthUrl(s.username, s.token, repoPath), Str(dir))
    ensures o.result.Some? <==> rep.clone.Exited? && rep.clone.code == 0
    ensures o.result.Some? ==> o.result.value == dir && Present(o.disk, Resolve(dir, cwd))
    ensures o.result.Some? ==> Resolve(dir, cwd) in o.disk.dirs && Resolve(dir, cwd) + [".git"] in o.disk.dirs
    ensures o.result.Some? ==>
      Resolve(dir, cwd) in o.disk.origin &&
      o.disk.origin[Resolve(dir, cwd)] ==
        (if rep.setUrlOk then CloneUrl(repoPath) else AuthUrl(s.username, s.token, repoPath))
  {
    var loc := Resolve(dir, cwd);
    var d1 := WithParents(d, Resolve(s.cloneDirectory, cwd));
    var start := [MakeDirs(Resolve(s.cloneDirectory, cwd)), GitClone(AuthUrl(s.username, s.token, repoPath), Str(dir))];
    match rep.clone
    case SubprocessFailed => Outcome(d1, start, None)
    case Exited(code, stderr) =>
      if code != 0 then
        Outcome(d1, start + [ReportCloneError(ScrubError(stderr, s.token, s.username))], None)
      else
        var d2 := Cloned(d1, loc, AuthUrl(s.username, s.token, repoPath), rep.tree);
        var d3 := if rep.setUrlOk then d2.(origin := d2.origin[loc := CloneUrl(repoPath)]) else d2;
        Outcome(d3, start + [GitSetUrl(Str(dir), CloneUrl(repoPath))], Some(dir))
  }

  /** A fresh clone neither touches the script nor prints anything but git's masked error text. */
  lemma FreshCloneActions(d: Disk, cwd: Loc, s: Settings, repoPath: string, dir: Path, rep: Replies)
    ensures var f := FreshClone(d, cwd, s, repoPath, dir, rep);
      NoExecution(f.actions) &&
      forall k :: 0 <= k < |f.actions| && f.actions[k].ReportCloneError? ==>
        rep.clone.Exited? && f.actions[k].message == ScrubError(rep.clone.stderr, s.token, s.username)
  {
  }

  /** `GitHubRepo.clone(repo_path, force)` on disk `d`. */
  function CloneSpec(d: Disk, cwd: Loc, s: Settings, repoPath: string, force: bool,
                     rep: Replies): (o: Outcome<Option<Path>>)
    // a reference without `/` is refused before anything is touched
    ensures '/' !in repoPath ==> o == Outcome(d, [], None)
    // an existing destination is returned untouched unless forced
    ensures '/' in repoPath && Present(d, Resolve(RepoDir(s.cloneDirectory, repoPath), cwd)) && !force ==>
      o == Outcome(d, [], Some(RepoDir(s.cloneDirectory, repoPath)))
    // a forced re-clone whose removal fails stops there
    ensures '/' in repoPath && Present(d, Resolve(RepoDir(s.cloneDirectory, repoPath), cwd)) && force && !rep.removeOk ==>
      o == Outcome(d, [RemoveTree(Resolve(RepoDir(s.cloneDirectory, repoPath), cwd))], None)
    // git is run exactly when the destination was free or has been removed
    ensures NoGitCall(o.actions) <==>
      '/' !in repoPath ||
      (Present(d, Resolve(RepoDir(s.cloneDirectory, repoPath), cwd)) && (!force || !rep.removeOk))
    // the script runner's actions never appear
    ensures NoExecution(o.actions)
    // success means the clone's directory is there, and a fresh clone's `.git` too
    ensures o.result.Some? ==>
      o.result.value == RepoDir(s.cloneDirectory, repoPath) && Present(o.disk, Resolve(o.result.value, cwd))
    ensures o.result.Some? && !NoGitCall(o.actions) ==>
      var loc := Resolve(RepoDir(s.cloneDirectory, repoPath), cwd);
      loc in o.disk.dirs && loc + [".git"] in o.disk.dirs
  {
    if '/' !in repoPath then Outcome(d, [], None)
    else CloneAt(d, cwd, s, repoPath, RepoDir(s.cloneDirectory, repoPath), force, rep)
  }

  /** `clone` once the reference has been accepted and its directory is `dir`. */
  function CloneAt(d: Disk, cwd: Loc, s: Settings, repoPath: string, dir: Path, force: bool,
                   rep: Replies): (o: Outcome<Option<Path>>)
    ensures Present(d, Resolve(dir, cwd)) && !force ==> o == Outcome(d, [], Some(dir))
    ensures Present(d, Resolve(dir, cwd)) && force && !rep.removeOk ==>
      o == Outcome(d, [RemoveTree(Resolve(dir, cwd))], None)
    ensures NoGitCall(o.actions) <==> Present(d, Resolve(dir, cwd)) && (!force || !rep.removeOk)
    ensures NoExecution(o.actions)
    ensures o.result.Some? ==> o.result.value == dir && Present(o.disk, Resolve(dir, cwd))
    ensures o.result.Some? && !NoGitCall(o.actions) ==>
      Resolve(dir, cwd) in o.disk.dirs && Resolve(dir, cwd) + [".git"] in o.disk.dirs
  {
    var loc := Resolve(dir, cwd);
    if Present(d, loc) && !force then Outcome(d, [], Some(dir))
    else if Present(d, loc) && !rep.removeOk then Outcome(d, [RemoveTree(loc)], None)
    else if Present(d, loc) then
      var f := FreshClone(Removed(d, loc), cwd, s, repoPath, dir, rep);
      var o := Outcome(f.disk, [RemoveTree(loc)] + f.actions, f.result);
      assert o.actions[2] == f.actions[1];
      FreshCloneActions(Removed(d, loc), cwd, s, repoPath, dir, rep);
      NoExecutionPrepend(RemoveTree(loc), f.actions);
      o
    else
      var f := FreshClone(d, cwd, s, repoPath, dir, rep);
      assert IsGitCall(f.actions[1]);
      FreshCloneActions(d, cwd, s, repoPath, dir, rep);
      f
  }

  /** git's error text, as printed, holds no occurrence of the token. */
  lemma CloneErrorHidesToken(d: Disk, cwd: Loc, s: Settings, repoPath: string, force: bool, rep: Replies)
    requires s.token != [] && '*' !in s.token
    ensures var o := CloneSpec(d, cwd, s, repoPath, force, rep);
      forall k :: 0 <= k < |o.actions| && o.actions[k].ReportCloneError? ==> !Occurs(s.token, o.actions[k].message)
  {
    if '/' in repoPath {
      var o := CloneSpec(d, cwd, s, repoPath, force, rep);
      CloneAtMasks(d, cwd, s, repoPath, RepoDir(s.cloneDirectory, repoPath), force, rep);
      forall k | 0 <= k < |o.actions| && o.actions[k].ReportCloneError?
        ensures !Occurs(s.token, o.actions[k].message)
      {
        ScrubHidesToken(rep.clone.stderr, s.token, s.username);
      }
    }
  }

  /** Every error text `clone` prints is git's standard error with the credentials masked. */
  lemma CloneAtMasks(d: Disk, cwd: Loc, s: Settings, repoPath: string, dir: Path, force: bool, rep: Replies)
    ensures var o := CloneAt(d, cwd, s, repoPath, dir, force, rep);
      forall k :: 0 <= k < |o.actions| && o.actions[k].ReportCloneError? ==>
        rep.clone.Exited? && o.actions[k].message == ScrubError(rep.clone.stderr, s.token, s.username)
  {
    var loc := Resolve(dir, cwd);
    if Present(d, loc) && force && rep.removeOk {
      var f := FreshClone(Removed(d, loc), cwd, s, repoPath, dir, rep);
      FreshCloneActions(Removed(d, loc), cwd, s, repoPath, dir, rep);
      assert forall k :: 1 <= k < 1 + |f.actions| ==> ([RemoveTree(loc)] + f.actions)[k] == f.actions[k - 1];
    } else if !Present(d, loc) {
      FreshCloneActions(d, cwd, s, repoPath, dir, rep);
    }
  }

  /** A clone that really ran and whose `set-url` succeeded records the
      clean URL as `origin`, and that URL has no userinfo. */
  lemma CloneSanitizesOrigin(d: Disk, cwd: Loc, s: Settings, repoPath: string, force: bool, rep: Replies)
    requires rep.setUrlOk
    requires CloneSpec(d, cwd, s, repoPath, force, rep).result.Some?
    requires !NoGitCall(CloneSpec(d, cwd, s, repoPath, force, rep).actions)
    ensures var o := CloneSpec(d, cwd, s, repoPath, force, rep);
      var loc := Resolve(RepoDir(s.cloneDirectory, repoPath), cwd);
      loc in o.disk.origin && o.disk.origin[loc] == CloneUrl(repoPath) &&
      StartsWith(o.disk.origin[loc], Scheme) && UserInfo(o.disk.origin[loc]) == None
  {
    CloneUrlHasNoUserInfo(repoPath);
  }

  /** When `set-url` fails the failure is ignored: `clone` still succeeds and
      the token stays readable in the clone's `origin`. */
  lemma UnsanitizedOriginKeepsToken(d: Disk, cwd: Loc, s: Settings, repoPath: string, force: bool, rep: Replies)
    requires !rep.setUrlOk
    requires Plain(s.username) && ':' !in s.username && Plain(s.token)
    requires CloneSpec(d, cwd, s, repoPath, force, rep).result.Some?
    requires !NoGitCall(CloneSpec(d, cwd, s, repoPath, force, rep).actions)
    ensures var o := CloneSpec(d, cwd, s, repoPath, force, rep);
      var loc := Resolve(RepoDir(s.cloneDirectory, repoPath), cwd);
      loc in o.disk.origin && StartsWith(o.disk.origin[loc], Scheme) &&
      Credentials(o.disk.origin[loc]) == Some((s.username, s.token))
  {
    AuthUrlCredentials(s.username, s.token, repoPath);
  }

  /** Once `a/x` is cloned, `clone b/x` reports success with a's clone and runs nothing. */
  lemma SameNameSharesClone(d: Disk, cwd: Loc, s: Settings, ownerA: string, ownerB: string, name: string,
                            force: bool, rep: Replies, rep2: Replies)
    requires '/' !in name
    requires CloneSpec(d, cwd, s, ownerA + "/" + name, force, rep).result.Some?
    ensures var first := CloneSpec(d, cwd, s, ownerA + "/" + name, force, rep);
      CloneSpec(first.disk, cwd, s, ownerB + "/" + name, false, rep2) ==
        Outcome(first.disk, [], first.result)
  {
    RepoDirCollision(s.cloneDirectory, ownerA, ownerB, name);
    assert '/' in ownerB + "/" + name by {
      assert (ownerB + "/" + name)[|ownerB|] == '/';
    }
  }

  /** `clone owner/ --force` on an existing clone directory starts by removing
      that whole directory, every other clone included. */
  lemma ForcedEmptyNameRemovesCloneDirectory(d: Disk, cwd: Loc, s: Settings, owner: string, rep: Replies)
    requires Present(d, Resolve(s.cloneDirectory, cwd))
    ensures var o := CloneSpec(d, cwd, s, owner + "/", true, rep);
      o.actions != [] && o.actions[0] == RemoveTree(Resolve(s.cloneDirectory, cwd))
  {
    RepoDirOfEmptyName(s.cloneDirectory, owner);
    assert (owner + "/")[|owner|] == '/';
  }

  // ---------------------------------------------------------------------------
  // pull

  /** `GitHubRepo.pull(repo_path)`: `git pull` in an existing clone; true when it exits with 0. */
  function PullSpec(d: Disk, cwd: Loc, s: Settings, repoPath: string, run: GitRun): (o: Outcome<bool>)
    ensures o.disk == d
    ensures !Present(d, Resolve(RepoDir(s.cloneDirectory, repoPath), cwd)) ==> o.actions == [] && !o.result
    ensures o.result <==>
      Present(d, Resolve(RepoDir(s.cloneDirectory, repoPath), cwd)) && run.Exited? && run.code == 0
  {
    var dir := RepoDir(s.cloneDirectory, repoPath);
    if !Present(d, Resolve(dir, cwd)) then Outcome(d, [], false)
    else Outcome(d, [GitPull(Str(dir))], run.Exited? && run.code == 0)
  }

  // ---------------------------------------------------------------------------
  // run_script

  /** The reply at the prompt counts as yes when, stripped and lower-cased, it is `y`
      (`Y` is the only other character `lower()` turns into `y`). */
  predicate Confirmed(answer: Option<string>) {
    answer.Some? && (Strip(answer.value) == "y" || Strip(answer.value) == "Y")
  }

  /** Where the script is: `repo_dir / script_path`, resolved. */
  function ScriptLoc(cwd: Loc, dir: Path, scriptPath: string): Loc {
    Resolve(Join(dir, scriptPath), cwd)
  }

  /** Everything `run_script` demands before it touches the script. */
  predicate MayRun(d: Disk, cwd: Loc, dir: Path, scriptPath: string, noConfirm: bool, answer: Option<string>) {
    ScriptLoc(cwd, dir, scriptPath) in d.files &&
    PrefixCheck(ScriptLoc(cwd, dir, scriptPath), Resolve(dir, cwd)) &&
    (noConfirm || Confirmed(answer))
  }

  /** The exit code `run_script` reports once the script was started. */
  function ChildCode(child: ChildRun): int {
    if child.ChildExited? then child.code else 1
  }

  /** The clone step of `run_script`: nothing to do if the directory exists, else `clone`. */
  function EnsureClone(d: Disk, cwd: Loc, s: Settings, repoPath: string, rep: Replies): (o: Outcome<Option<Path>>)
    ensures Present(d, Resolve(RepoDir(s.cloneDirectory, repoPath), cwd)) ==>
      o == Outcome(d, [], Some(RepoDir(s.cloneDirectory, repoPath)))
    ensures !Present(d, Resolve(RepoDir(s.cloneDirectory, repoPath), cwd)) ==>
      o == CloneSpec(d, cwd, s, repoPath, false, rep)
    ensures NoExecution(o.actions)
  {
    var dir := RepoDir(s.cloneDirectory, repoPath);
    if Present(d, Resolve(dir, cwd)) then Outcome(d, [], Some(dir))
    else
      CloneSpec(d, cwd, s, repoPath, false, rep)
  }

  /** The steps of `run_script` after the repository directory `dir` is known:
      the checks, then the script's run. */
  function RunIn(d: Disk, cwd: Loc, dir: Path, scriptPath: string, args: seq<string>,
                 noConfirm: bool, rep: Replies): (o: Outcome<int>)
    // the script is touched only once every check has passed ...
    ensures !MayRun(d, cwd, dir, scriptPath, noConfirm, rep.answer) ==> o.disk == d && o.actions == []
    // ... and then it is made executable and run in the clone, with its arguments
    ensures MayRun(d, cwd, dir, scriptPath, noConfirm, rep.answer) ==>
      var loc := ScriptLoc(cwd, dir, scriptPath);
      o.actions == [Chmod(loc, ExecutableMode), Execute([LocStr(loc)] + args, Str(dir))] &&
      o.result == ChildCode(rep.child) &&
      o.disk == d.(executable := d.executable + {loc})
    // refusals report 1, except a declined confirmation, which reports 0
    ensures !MayRun(d, cwd, dir, scriptPath, noConfirm, rep.answer) ==>
      o.result == if ScriptLoc(cwd, dir, scriptPath) in d.files &&
                     PrefixCheck(ScriptLoc(cwd, dir, scriptPath), Resolve(dir, cwd)) then 0 else 1
  {
    var loc := ScriptLoc(cwd, dir, scriptPath);
    if !Present(d, loc) then Outcome(d, [], 1)
    else if loc !in d.files then Outcome(d, [], 1)
    else if !PrefixCheck(loc, Resolve(dir, cwd)) then Outcome(d, [], 1)
    else if !noConfirm && !Confirmed(rep.answer) then Outcome(d, [], 0)
    else
      Outcome(d.(executable := d.executable + {loc}),
              [Chmod(loc, ExecutableMode), Execute([LocStr(loc)] + args, Str(dir))],
              ChildCode(rep.child))
  }

  /** `GitHubRepo.run_script(repo_path, script_path, args, no_confirm)` on disk `d`. */
  function RunScriptSpec(d: Disk, cwd: Loc, s: Settings, repoPath: string, scriptPath: string,
                         args: seq<string>, noConfirm: bool, rep: Replies): Outcome<int>
  {
    RunAfter(EnsureClone(d, cwd, s, repoPath, rep), cwd, scriptPath, args, noConfirm, rep)
  }

  /** What `run_script` does after the clone step `c`: report 1 if it failed, else
      check and run the script in the directory it gave. */
  function RunAfter(c: Outcome<Option<Path>>, cwd: Loc, scriptPath: string, args: seq<string>,
                    noConfirm: bool, rep: Replies): Outcome<int>
  {
    match c.result
    case None => Outcome(c.disk, c.actions, 1)
    case Some(dir) =>
      var r := RunIn(c.disk, cwd, dir, scriptPath, args, noConfirm, rep);
      Outcome(r.disk, c.actions + r.actions, r.result)
  }

  /** The script is touched only when it is a regular file that passes the
      containment check and the user agreed or `--yes` was given; then the
      exit code is the child's. Otherwise nothing runs and the code is 0 for
      a declined prompt and 1 for every other refusal. */
  lemma RunScriptGuards(d: Disk, cwd: Loc, s: Settings, repoPath: string, scriptPath: string,
                        args: seq<string>, noConfirm: bool, rep: Replies)
    ensures var o := RunScriptSpec(d, cwd, s, repoPath, scriptPath, args, noConfirm, rep);
      var c := EnsureClone(d, cwd, s, repoPath, rep);
      (c.result.None? ==> o.result == 1 && NoExecution(o.actions)) &&
      (!NoExecution(o.actions) ==>
        c.result == Some(RepoDir(s.cloneDirectory, repoPath)) &&
        MayRun(c.disk, cwd, c.result.value, scriptPath, noConfirm, rep.answer) &&
        o.result == ChildCode(rep.child)) &&
      (NoExecution(o.actions) ==> o.result == 0 || o.result == 1) &&
      (NoExecution(o.actions) && o.result == 0 ==> !noConfirm && !Confirmed(rep.answer))
  {
    var c := EnsureClone(d, cwd, s, repoPath, rep);
    if c.result.Some? {
      var dir := c.result.value;
      var r := RunIn(c.disk, cwd, dir, scriptPath, args, noConfirm, rep);
      if MayRun(c.disk, cwd, dir, scriptPath, noConfirm, rep.answer) {
        assert (c.actions + r.actions)[|c.actions|].Chmod?;
      } else {
        assert c.actions + r.actions == c.actions;
      }
    }
  }

  /** Where a script that `run_script` runs can lie: inside the repository
      directory, or in a sibling of it whose name extends the repository's. */
  lemma RunScriptContainment(d: Disk, cwd: Loc, s: Settings, repoPath: string, scriptPath: string,
                             args: seq<string>, noConfirm: bool, rep: Replies)
    requires WellFormed(cwd) && WellFormed(s.cloneDirectory.parts)
    ensures var o := RunScriptSpec(d, cwd, s, repoPath, scriptPath, args, noConfirm, rep);
      var dir := RepoDir(s.cloneDirectory, repoPath);
      !NoExecution(o.actions) ==>
        Within(ScriptLoc(cwd, dir, scriptPath), Resolve(dir, cwd)) ||
        InExtendedSibling(ScriptLoc(cwd, dir, scriptPath), Resolve(dir, cwd))
  {
    var o := RunScriptSpec(d, cwd, s, repoPath, scriptPath, args, noConfirm, rep);
    var dir := RepoDir(s.cloneDirectory, repoPath);
    RunScriptGuards(d, cwd, s, repoPath, scriptPath, args, noConfirm, rep);
    if !NoExecution(o.actions) {
      JoinWellFormed(s.cloneDirectory, LastPiece(repoPath, '/'));
      JoinWellFormed(dir, scriptPath);
      ResolveWellFormed(dir, cwd);
      ResolveWellFormed(Join(dir, scriptPath), cwd);
      PrefixCheckSound(ScriptLoc(cwd, dir, scriptPath), Resolve(dir, cwd));
    }
  }

  /** In an existing clone, a script that passes every check is made
      executable and run with its arguments, and its exit code is returned. */
  lemma CheckedScriptRuns(d: Disk, cwd: Loc, s: Settings, repoPath: string, scriptPath: string,
                          args: seq<string>, noConfirm: bool, rep: Replies)
    requires Present(d, Resolve(RepoDir(s.cloneDirectory, repoPath), cwd))
    requires MayRun(d, cwd, RepoDir(s.cloneDirectory, repoPath), scriptPath, noConfirm, rep.answer)
    ensures var dir := RepoDir(s.cloneDirectory, repoPath);
      var loc := ScriptLoc(cwd, dir, scriptPath);
      RunScriptSpec(d, cwd, s, repoPath, scriptPath, args, noConfirm, rep) ==
        Outcome(d.(executable := d.executable + {loc}),
                [Chmod(loc, ExecutableMode), Execute([LocStr(loc)] + args, Str(dir))],
                ChildCode(rep.child))
  {
    var dir := RepoDir(s.cloneDirectory, repoPath);
    var loc := ScriptLoc(cwd, dir, scriptPath);
    assert [] + [Chmod(loc, ExecutableMode), Execute([LocStr(loc)] + args, Str(dir))] ==
      [Chmod(loc, ExecutableMode), Execute([LocStr(loc)] + args, Str(dir))];
  }

  /** A script under the repository reached without `..` passes the
      containment check, and with `--yes` it is run and its code returned. */
  lemma ScriptInsideRepoRuns(d: Disk, cwd: Loc, s: Settings, repoPath: string, scriptPath: string,
                             args: seq<string>, rep: Replies)
    requires !StartsWith(scriptPath, "/")
    requires forall k :: 0 <= k < |Parse(scriptPath).parts| ==> Parse(scriptPath).parts[k] != ".."
    requires Present(d, Resolve(RepoDir(s.cloneDirectory, repoPath), cwd))
    requires ScriptLoc(cwd, RepoDir(s.cloneDirectory, repoPath), scriptPath) in d.files
    ensures Within(ScriptLoc(cwd, RepoDir(s.cloneDirectory, repoPath), scriptPath),
                   Resolve(RepoDir(s.cloneDirectory, repoPath), cwd))
    ensures RunScriptSpec(d, cwd, s, repoPath, scriptPath, args, true, rep).result == ChildCode(rep.child)
  {
    var dir := RepoDir(s.cloneDirectory, repoPath);
    JoinedDescendantIsWithin(dir, scriptPath, cwd);
    WithinPassesPrefixCheck(ScriptLoc(cwd, dir, scriptPath), Resolve(dir, cwd));
    CheckedScriptRuns(d, cwd, s, repoPath, scriptPath, args, true, rep);
  }

  /** `../<sib>/<file>` splits into the parts `..`, `<sib>` and `<file>`. */
  lemma ParseUpAndOver(sib: string, file: string)
    requires GoodPart(sib) && GoodPart(file)
    ensures !StartsWith("../" + sib + "/" + file, "/")
    ensures Parse("../" + sib + "/" + file).parts == ["..", sib, file]
  {
    var scriptPath := "../" + sib + "/" + file;
    assert scriptPath == ".." + ['/'] + (sib + ['/'] + file);
    SplitAtSep("..", '/', sib + ['/'] + file);
    SplitAtSep(sib, '/', file);
    SplitNoSep(file, '/');
    assert scriptPath[0] == '.';
  }

  /** Under a location normalizing to `parent/name`, going up and then down two parts. */
  lemma NormalizeUpAndOver(base: seq<string>, parent: Loc, name: string, sib: string, file: string)
    requires Normalize(base) == parent + [name]
    requires sib != ".." && file != ".."
    ensures Normalize(base + ["..", sib, file]) == parent + [sib, file]
  {
    var up, over, all := base + [".."], base + ["..", sib], base + ["..", sib, file];
    assert all[..|all| - 1] == over && all[|all| - 1] == file;
    assert over[..|over| - 1] == up && over[|over| - 1] == sib;
    assert up[..|up| - 1] == base && up[|up| - 1] == "..";
    assert (parent + [name])[..|parent|] == parent;
    assert Normalize(up) == parent;
    assert Normalize(over) == parent + [sib];
    assert Normalize(all) == parent + [sib] + [file];
  }

  /** From a directory resolving to `parent/name`, `../<sib>/<file>` resolves to `parent/<sib>/<file>`. */
  lemma ResolveUpAndOver(dir: Path, cwd: Loc, parent: Loc, name: string, sib: string, file: string)
    requires Resolve(dir, cwd) == parent + [name]
    requires GoodPart(sib) && sib != ".." && GoodPart(file) && file != ".."
    ensures Resolve(Join(dir, "../" + sib + "/" + file), cwd) == parent + [sib, file]
  {
    ParseUpAndOver(sib, file);
    var base := if dir.absolute then dir.parts else cwd + dir.parts;
    if !dir.absolute {
      assert cwd + (dir.parts + ["..", sib, file]) == base + ["..", sib, file];
    }
    NormalizeUpAndOver(base, parent, name, sib, file);
  }

  /** `<name><extra>` is a part resolution keeps, when `<name>` is one. */
  lemma SiblingName(parent: Loc, name: string, extra: string)
    requires forall k :: 0 <= k < |parent + [name]| ==> (parent + [name])[k] != ".."
    requires '/' !in name && GoodPart(extra) && extra != ".."
    ensures GoodPart(name + extra) && name + extra != ".."
  {
    var sib := name + extra;
    if |name| == 0 {
      assert sib == extra;
    } else {
      assert (parent + [name])[|parent|] == name;
      assert sib[|name|..] == extra;
      if |sib| == 2 && |name| == 1 { assert extra == [sib[1]]; }
    }
  }

  /** From a directory resolving to `parent/name`, `../<name><extra>/<file>`
      names `parent/<name><extra>/<file>`: outside the directory, yet it
      passes the textual containment check. */
  lemma SiblingLoc(dir: Path, cwd: Loc, parent: Loc, name: string, extra: string, file: string)
    requires Resolve(dir, cwd) == parent + [name] && '/' !in name
    requires GoodPart(extra) && extra != ".." && GoodPart(file) && file != ".."
    ensures var loc := ScriptLoc(cwd, dir, "../" + name + extra + "/" + file);
      loc == parent + [name + extra, file] &&
      !Within(loc, parent + [name]) &&
      PrefixCheck(loc, parent + [name])
  {
    var sib := name + extra;
    SiblingName(parent, name, extra);
    assert "../" + name + extra + "/" + file == "../" + sib + "/" + file;
    ResolveUpAndOver(dir, cwd, parent, name, sib, file);
    var loc := parent + [sib, file];
    SiblingPassesPrefixCheck(parent, name, extra);
    assert Within(loc, parent + [sib]) by {
      assert loc[..|parent + [sib]|] == parent + [sib];
    }
    WithinPassesPrefixCheck(loc, parent + [sib]);
    StartsWithTrans(LocStr(loc), LocStr(parent + [sib]), LocStr(parent + [name]));
    assert loc[|parent|] != (parent + [name])[|parent|] by {
      assert |sib| != |name|;
    }
  }

  /** So a script in a sibling of the repository whose name extends the
      repository's is run, given `--yes`. */
  lemma SiblingScriptRuns(d: Disk, cwd: Loc, s: Settings, repoPath: string, parent: Loc, name: string,
                          extra: string, file: string, args: seq<string>, rep: Replies)
    requires Resolve(RepoDir(s.cloneDirectory, repoPath), cwd) == parent + [name] && '/' !in name
    requires GoodPart(extra) && extra != ".." && GoodPart(file) && file != ".."
    requires parent + [name] in d.dirs && parent + [name + extra] in d.dirs
    requires parent + [name + extra, file] in d.files
    ensures RunScriptSpec(d, cwd, s, repoPath, "../" + name + extra + "/" + file, args, true, rep).result ==
      ChildCode(rep.child)
  {
    SiblingLoc(RepoDir(s.cloneDirectory, repoPath), cwd, parent, name, extra, file);
    CheckedScriptRuns(d, cwd, s, repoPath, "../" + name + extra + "/" + file, args, true, rep);
  }

  // ---------------------------------------------------------------------------
  // list_repos

  /** `d / name` is a directory holding `.git`. */
  predicate IsClone(d: Disk, cwd: Loc, cloneDir: Path, name: string) {
    Resolve(Join(cloneDir, name), cwd) in d.dirs &&
    Present(d, Resolve(Join(Join(cloneDir, name), ".git"), cwd))
  }

  /** The comprehension of `list_repos` over the directory's entries `names`, in order. */
  function Clones(d: Disk, cwd: Loc, cloneDir: Path, names: seq<string>): (r: seq<string>)
    ensures |r| <= |names|
    ensures forall k :: 0 <= k < |r| ==> r[k] in names && IsClone(d, cwd, cloneDir, r[k])
  {
    if names == [] then []
    else
      var last := names[|names| - 1];
      Clones(d, cwd, cloneDir, names[..|names| - 1]) + (if IsClone(d, cwd, cloneDir, last) then [last] else [])
  }

  /** `GitHubRepo.list_repos()`; `listing` is what `iterdir` yields, in its order. */
  function ListReposSpec(d: Disk, cwd: Loc, cloneDir: Path, listing: seq<string>): (r: seq<string>)
    ensures !Present(d, Resolve(cloneDir, cwd)) ==> r == []
  {
    if !Present(d, Resolve(cloneDir, cwd)) then [] else Clones(d, cwd, cloneDir, listing)
  }

  /** One more entry of the listing extends the filtered list by that entry or by nothing. */
  lemma ClonesStep(d: Disk, cwd: Loc, cloneDir: Path, names: seq<string>, i: nat)
    requires i < |names|
    ensures Clones(d, cwd, cloneDir, names[..i + 1]) ==
      Clones(d, cwd, cloneDir, names[..i]) + (if IsClone(d, cwd, cloneDir, names[i]) then [names[i]] else [])
  {
    assert names[..i + 1][..i] == names[..i];
  }

  /** An entry name is appended to the directory it is listed in. */
  lemma ResolveEntry(dir: Path, cwd: Loc, name: string)
    requires GoodPart(name) && name != ".."
    ensures Resolve(Join(dir, name), cwd) == Resolve(dir, cwd) + [name]
    ensures Resolve(Join(Join(dir, name), ".git"), cwd) == Resolve(dir, cwd) + [name, ".git"]
  {
    ResolvePart(dir, cwd, name);
    ResolvePart(Join(dir, name), cwd, ".git");
    assert Resolve(dir, cwd) + [name] + [".git"] == Resolve(dir, cwd) + [name, ".git"];
  }

  /** Exactly the listed entries that are directories holding `.git` are returned. */
  lemma {:induction false} ClonesExactly(d: Disk, cwd: Loc, cloneDir: Path, names: seq<string>)
    requires forall k :: 0 <= k < |names| ==> GoodPart(names[k]) && names[k] != ".."
    ensures forall x :: x in Clones(d, cwd, cloneDir, names) <==>
      x in names &&
      Resolve(cloneDir, cwd) + [x] in d.dirs && Present(d, Resolve(cloneDir, cwd) + [x, ".git"])
  {
    if names != [] {
      var init, last := names[..|names| - 1], names[|names| - 1];
      ClonesExactly(d, cwd, cloneDir, init);
      assert names == init + [last];
      forall x | x in names
        ensures IsClone(d, cwd, cloneDir, x) <==>
          Resolve(cloneDir, cwd) + [x] in d.dirs && Present(d, Resolve(cloneDir, cwd) + [x, ".git"])
      {
        ResolveEntry(cloneDir, cwd, x);
      }
    }
  }

  /** `list_repos` returns exactly the subdirectories of the clone directory
      that hold `.git` (given a listing of its entries), and nothing when it is missing. */
  lemma ListReposExactly(d: Disk, cwd: Loc, cloneDir: Path, listing: seq<string>)
    requires forall k :: 0 <= k < |listing| ==> GoodPart(listing[k]) && listing[k] != ".."
    requires forall x :: x in listing <==> Present(d, Resolve(cloneDir, cwd) + [x])
    ensures forall x :: x in ListReposSpec(d, cwd, cloneDir, listing) <==>
      Present(d, Resolve(cloneDir, cwd)) &&
      Resolve(cloneDir, cwd) + [x] in d.dirs && Present(d, Resolve(cloneDir, cwd) + [x, ".git"])
  {
    ClonesExactly(d, cwd, cloneDir, listing);
  }

  /** A listed entry whose repository directory holds `.git` is returned. */
  lemma ListedClone(d: Disk, cwd: Loc, cloneDir: Path, repoPath: string, listing: seq<string>)
    requires GoodPart(LastPiece(repoPath, '/')) && LastPiece(repoPath, '/') != ".."
    requires forall k :: 0 <= k < |listing| ==> GoodPart(listing[k]) && listing[k] != ".."
    requires LastPiece(repoPath, '/') in listing && Present(d, Resolve(cloneDir, cwd))
    requires Resolve(RepoDir(cloneDir, repoPath), cwd) in d.dirs
    requires Resolve(RepoDir(cloneDir, repoPath), cwd) + [".git"] in d.dirs
    ensures LastPiece(repoPath, '/') in ListReposSpec(d, cwd, cloneDir, listing)
  {
    var name := LastPiece(repoPath, '/');
    RepoEntry(cloneDir, cwd, repoPath);
    ClonesExactly(d, cwd, cloneDir, listing);
    assert name in Clones(d, cwd, cloneDir, listing);
  }

  /** A repository directory with a plain name is that entry of the clone directory. */
  lemma RepoEntry(cloneDir: Path, cwd: Loc, repoPath: string)
    requires GoodPart(LastPiece(repoPath, '/')) && LastPiece(repoPath, '/') != ".."
    ensures Resolve(RepoDir(cloneDir, repoPath), cwd) == Resolve(cloneDir, cwd) + [LastPiece(repoPath, '/')]
    ensures Resolve(RepoDir(cloneDir, repoPath), cwd) + [".git"] == Resolve(cloneDir, cwd) + [LastPiece(repoPath, '/'), ".git"]
  {
    ResolvePart(cloneDir, cwd, LastPiece(repoPath, '/'));
  }

  /** A repository just cloned under a plain name is listed afterwards. */
  lemma ClonedIsListed(d: Disk, cwd: Loc, s: Settings, repoPath: string, force: bool, rep: Replies,
                       listing: seq<string>)
    requires GoodPart(LastPiece(repoPath, '/')) && LastPiece(repoPath, '/') != ".."
    requires forall k :: 0 <= k < |listing| ==> GoodPart(listing[k]) && listing[k] != ".."
    requires LastPiece(repoPath, '/') in listing
    ensures var o := CloneSpec(d, cwd, s, repoPath, force, rep);
      o.result.Some? && !NoGitCall(o.actions) && Present(o.disk, Resolve(s.cloneDirectory, cwd)) ==>
        LastPiece(repoPath, '/') in ListReposSpec(o.disk, cwd, s.cloneDirectory, listing)
  {
    var o := CloneSpec(d, cwd, s, repoPath, force, rep);
    if o.result.Some? && !NoGitCall(o.actions) && Present(o.disk, Resolve(s.cloneDirectory, cwd)) {
      ListedClone(o.disk, cwd, s.cloneDirectory, repoPath, listing);
    }
  }

  // ---------------------------------------------------------------------------
  // The connector object

  /** The repository manager over a configuration; each operation acts on a
      `Machine` and takes the outside world's replies as arguments. */
  class GitHubRepo {
    const config: Config

    constructor (config: Config)
      ensures this.config == config
    {
      this.config := config;
    }

    /** The settings the configuration file gives. */
    function Configured(): Settings {
      SettingsOf(config.file, config.home)
    }

    /** `_build_clone_url` */
    method BuildCloneUrl(repoPath: string) returns (url: string)
      ensures url == CloneUrl(repoPath)
      ensures StartsWith(url, Scheme) && UserInfo(url) == None
    {
      url := "https://github.com/" + repoPath + ".git";
      CloneUrlHasNoUserInfo(repoPath);
    }

    /** `_get_repo_dir` */
    method GetRepoDir(repoPath: string) returns (dir: Path)
      requires config.Valid()
      modifies config
      ensures config.Valid() && config.cache == Some(config.file)
      ensures dir == RepoDir(Configured().cloneDirectory, repoPath)
    {
      var name := LastPiece(repoPath, '/');
      var cloneDir := config.CloneDirectory();
      dir := Join(cloneDir, name);
    }

    /** `_sanitize_remote_url`: point `origin` at the clean URL; a failure is ignored. */
    method SanitizeRemoteUrl(m: Machine, dir: Path, repoPath: string, ok: bool)
      modifies m
      ensures m.log == old(m.log) + [GitSetUrl(Str(dir), CloneUrl(repoPath))]
      ensures m.disk == if ok then old(m.disk).(origin := old(m.disk).origin[Resolve(dir, m.cwd) := CloneUrl(repoPath)])
                        else old(m.disk)
    {
      var cleanUrl := "https://github.com/" + repoPath + ".git";
      assert cleanUrl == CloneUrl(repoPath);
      var _ := m.RunGitSetUrl(dir, cleanUrl, ok);
    }

    /** `clone(repo_path, force)` */
    method Clone(m: Machine, repoPath: string, force: bool, rep: Replies) returns (result: Option<Path>)
      requires config.Valid()
      modifies config, m
      ensures config.Valid()
      ensures var o := CloneSpec(old(m.disk), m.cwd, Configured(), repoPath, force, rep);
        result == o.result && m.disk == o.disk && m.log == old(m.log) + o.actions
    {
      if '/' !in repoPath {
        return None;
      }
      var dir := GetRepoDir(repoPath);
      if m.Exists(dir) {
        if force {
          var removed := m.RemoveTree(dir, rep.removeOk);
          if !removed {
            return None;
          }
          ghost var afterRemoval := m.log;
          ghost var f := FreshClone(m.disk, m.cwd, Configured(), repoPath, dir, rep);
          result := CloneInto(m, dir, repoPath, rep);
          assert m.log == afterRemoval + f.actions;
          AppendAssoc(old(m.log), [RemoveTree(Resolve(dir, m.cwd))], f.actions);
          return;
        } else {
          return Some(dir);
        }
      }
      result := CloneInto(m, dir, repoPath, rep);
    }

    /** The steps of `clone` from `mkdir` on, once the destination `dir` is free. */
    method CloneInto(m: Machine, dir: Path, repoPath: string, rep: Replies) returns (result: Option<Path>)
      requires config.Valid()
      modifies config, m
      ensures config.Valid()
      ensures var o := FreshClone(old(m.disk), m.cwd, Configured(), repoPath, dir, rep);
        result == o.result && m.disk == o.disk && m.log == old(m.log) + o.actions
    {
      var user, token, run := StartClone(m, dir, repoPath, rep);
      ghost var started := m.log;
      ghost var f := FreshClone(old(m.disk), m.cwd, Configured(), repoPath, dir, rep);
      if run.SubprocessFailed? {
        return None;
      }
      if run.code != 0 {
        var errorMsg := Replace(run.stderr, token, "***");
        errorMsg := Replace(errorMsg, user, "***");
        m.Report(errorMsg);
        AppendAssoc(old(m.log), started[|old(m.log)|..], [ReportCloneError(errorMsg)]);
        return None;
      }
      SanitizeRemoteUrl(m, dir, repoPath, rep.setUrlOk);
      AppendAssoc(old(m.log), started[|old(m.log)|..], [GitSetUrl(Str(dir), CloneUrl(repoPath))]);
      return Some(dir);
    }

    /** The steps of `clone` up to and including `git clone`. */
    method StartClone(m: Machine, dir: Path, repoPath: string, rep: Replies)
      returns (user: string, token: string, run: GitRun)
      requires config.Valid()
      modifies config, m
      ensures config.Valid()
      ensures user == Configured().username && token == Configured().token && run == rep.clone
      ensures var made := Resolve(Configured().cloneDirectory, m.cwd);
        m.log == old(m.log) + [MakeDirs(made), GitClone(AuthUrl(user, token, repoPath), Str(dir))] &&
        m.disk == if run.Exited? && run.code == 0
                  then Cloned(WithParents(old(m.disk), made), Resolve(dir, m.cwd), AuthUrl(user, token, repoPath), rep.tree)
                  else WithParents(old(m.disk), made)
    {
      var cloneDir := config.CloneDirectory();
      m.MakeDirs(cloneDir);
      user := config.Username();
      token := config.Token();
      var cloneUrl := "https://" + user + ":" + token + "@github.com/" + repoPath + ".git";
      assert cloneUrl == AuthUrl(user, token, repoPath);
      run := m.RunGitClone(cloneUrl, dir, rep.clone, rep.tree);
    }

    /** `pull(repo_path)` */
    method Pull(m: Machine, repoPath: string, run: GitRun) returns (ok: bool)
      requires config.Valid()
      modifies config, m
      ensures config.Valid()
      ensures var o := PullSpec(old(m.disk), m.cwd, Configured(), repoPath, run);
        ok == o.result && m.disk == o.disk && m.log == old(m.log) + o.actions
    {
      var dir := GetRepoDir(repoPath);
      if !m.Exists(dir) {
        return false;
      }
      var result := m.RunGitPull(dir, run);
      ok := result.Exited? && result.code == 0;
    }

    /** `run_script(repo_path, script_path, args, no_confirm)` */
    method RunScript(m: Machine, repoPath: string, scriptPath: string, args: seq<string>,
                     noConfirm: bool, rep: Replies) returns (code: int)
      requires config.Valid()
      modifies config, m
      ensures config.Valid()
      ensures var o := RunScriptSpec(old(m.disk), m.cwd, Configured(), repoPath, scriptPath, args, noConfirm, rep);
        code == o.result && m.disk == o.disk && m.log == old(m.log) + o.actions
    {
      ghost var c := EnsureClone(m.disk, m.cwd, Configured(), repoPath, rep);
      var ready := EnsureCloned(m, repoPath, rep);
      code := RunReady(m, ready, scriptPath, args, noConfirm, rep, old(m.log), c);
    }

    /** The rest of `run_script` once the clone step has given `ready`; `c` is
        that step's outcome and `before` the log before it. */
    method RunReady(m: Machine, ready: Option<Path>, scriptPath: string, args: seq<string>, noConfirm: bool,
                    rep: Replies, ghost before: seq<Action>, ghost c: Outcome<Option<Path>>) returns (code: int)
      requires ready == c.result && m.disk == c.disk && m.log == before + c.actions
      modifies m
      ensures var o := RunAfter(c, m.cwd, scriptPath, args, noConfirm, rep);
        code == o.result && m.disk == o.disk && m.log == before + o.actions
    {
      if ready.None? {
        return 1;
      }
      ghost var r := RunIn(m.disk, m.cwd, ready.value, scriptPath, args, noConfirm, rep);
      code := RunFrom(m, ready.value, scriptPath, args, noConfirm, rep);
      AppendAssoc(before, c.actions, r.actions);
    }

    /** The first step of `run_script`: clone unless the directory is already there. */
    method EnsureCloned(m: Machine, repoPath: string, rep: Replies) returns (repoDir: Option<Path>)
      requires config.Valid()
      modifies config, m
      ensures config.Valid()
      ensures var o := EnsureClone(old(m.disk), m.cwd, Configured(), repoPath, rep);
        repoDir == o.result && m.disk == o.disk && m.log == old(m.log) + o.actions
    {
      var dir := GetRepoDir(repoPath);
      if m.Exists(dir) {
        return Some(dir);
      }
      repoDir := Clone(m, repoPath, false, rep);
    }

    /** The checks of `run_script` once the repository directory `repoDir` is there,
        then the script's run. */
    method RunFrom(m: Machine, repoDir: Path, scriptPath: string, args: seq<string>,
                   noConfirm: bool, rep: Replies) returns (code: int)
      modifies m
      ensures var o := RunIn(old(m.disk), m.cwd, repoDir, scriptPath, args, noConfirm, rep);
        code == o.result && m.disk == o.disk && m.log == old(m.log) + o.actions
    {
      var checked, resolved := CheckScript(m, repoDir, scriptPath);
      if !checked {
        return 1;
      }
      if !noConfirm {
        var confirm := if rep.answer.Some? then Strip(rep.answer.value) else "n";
        if confirm != "y" && confirm != "Y" {
          return 0;
        }
      }
      assert noConfirm || Confirmed(rep.answer);
      assert MayRun(m.disk, m.cwd, repoDir, scriptPath, noConfirm, rep.answer);
      code := Launch(m, resolved, repoDir, args, rep.child);
    }

    /** The end of `run_script`: `chmod 755` on the resolved script, then its run in the clone. */
    method Launch(m: Machine, resolved: Loc, repoDir: Path, args: seq<string>, child: ChildRun) returns (code: int)
      requires forall k :: 0 <= k < |resolved| ==> resolved[k] != ".."
      modifies m
      ensures code == ChildCode(child)
      ensures m.log == old(m.log) + [Chmod(resolved, ExecutableMode), Execute([LocStr(resolved)] + args, Str(repoDir))]
      ensures m.disk == old(m.disk).(executable := old(m.disk).executable + {resolved})
    {
      NormalizeResolved(resolved);
      m.MakeExecutable(Path(true, resolved));
      var cmd := [LocStr(resolved)] + args;
      var result := m.Spawn(cmd, repoDir, child);
      AppendAssoc(old(m.log), [Chmod(resolved, ExecutableMode)], [Execute(cmd, Str(repoDir))]);
      assert [Chmod(resolved, ExecutableMode)] + [Execute(cmd, Str(repoDir))] ==
             [Chmod(resolved, ExecutableMode), Execute(cmd, Str(repoDir))];
      code := if result.ChildExited? then result.code else 1;
    }

    /** The existence, regular-file and containment checks of `run_script`;
        `resolved` is where the script is. */
    method CheckScript(m: Machine, repoDir: Path, scriptPath: string) returns (ok: bool, resolved: Loc)
      ensures resolved == ScriptLoc(m.cwd, repoDir, scriptPath)
      ensures ok <==> resolved in m.disk.files && PrefixCheck(resolved, Resolve(repoDir, m.cwd))
    {
      var fullScriptPath := Join(repoDir, scriptPath);
      resolved := Resolve(fullScriptPath, m.cwd);
      if !m.Exists(fullScriptPath) {
        return false, resolved;
      }
      if !m.IsFile(fullScriptPath) {
        return false, resolved;
      }
      var repoDirResolved := Resolve(repoDir, m.cwd);
      ok := StartsWith(LocStr(resolved), LocStr(repoDirResolved));
    }

    /** `list_repos()`; `listing` is what `iterdir` yields for the clone directory. */
    method ListRepos(m: Machine, listing: seq<string>) returns (repos: seq<string>)
      requires config.Valid()
      modifies config
      ensures config.Valid()
      ensures repos == ListReposSpec(m.disk, m.cwd, Configured().cloneDirectory, listing)
    {
      var cloneDir := config.CloneDirectory();
      if !m.Exists(cloneDir) {
        return [];
      }
      repos := CollectClones(m, cloneDir, listing);
    }

    /** The comprehension of `list_repos` over the entries `listing`. */
    method CollectClones(m: Machine, cloneDir: Path, listing: seq<string>) returns (repos: seq<string>)
      ensures repos == Clones(m.disk, m.cwd, cloneDir, listing)
    {
      repos := [];
      var i := 0;
      while i < |listing|
        invariant 0 <= i <= |listing|
        invariant repos == Clones(m.disk, m.cwd, cloneDir, listing[..i])
      {
        var isClone := HoldsClone(m, cloneDir, listing[i]);
        ClonesStep(m.disk, m.cwd, cloneDir, listing, i);
        if isClone {
          repos := repos + [listing[i]];
        }
        i := i + 1;
      }
      assert listing[..|listing|] == listing;
    }

    /** The test of the comprehension in `list_repos`: `d.is_dir() and (d / ".git").exists()`. */
    method HoldsClone(m: Machine, cloneDir: Path, name: string) returns (b: bool)
      ensures b == IsClone(m.disk, m.cwd, cloneDir, name)
    {
      var entry := Join(cloneDir, name);
      b := m.IsDir(entry) && m.Exists(Join(entry, ".git"));
    }
  }

  // ---------------------------------------------------------------------------
  // Command handlers

  /** `cmd_clone`: 0 when a directory is returned, else 1. */
  method CmdClone(config: Config, m: Machine, repository: string, force: bool, rep: Replies) returns (code: int)
    requires config.Valid()
    modifies config, m
    ensures var o := CloneSpec(old(m.disk), m.cwd, SettingsOf(config.file, config.home), repository, force, rep);
      code == (if o.result.Some? then 0 else 1) && m.disk == o.disk && m.log == old(m.log) + o.actions
  {
    var repo := new GitHubRepo(config);
    var result := repo.Clone(m, repository, force, rep);
    code := if result.Some? then 0 else 1;
  }

  /** `cmd_pull`: 0 when the pull succeeded, else 1. */
  method CmdPull(config: Config, m: Machine, repository: string, run: GitRun) returns (code: int)
    requires config.Valid()
    modifies config, m
    ensures var o := PullSpec(old(m.disk), m.cwd, SettingsOf(config.file, config.home), repository, run);
      code == (if o.result then 0 else 1) && m.disk == o.disk && m.log == old(m.log) + o.actions
  {
    var repo := new GitHubRepo(config);
    var result := repo.Pull(m, repository, run);
    code := if result then 0 else 1;
  }

  /** `cmd_run`: the code `run_script` returns. */
  method CmdRun(config: Config, m: Machine, repository: string, script: string, scriptArgs: seq<string>,
                yes: bool, rep: Replies) returns (code: int)
    requires config.Valid()
    modifies config, m
    ensures var o := RunScriptSpec(old(m.disk), m.cwd, SettingsOf(config.file, config.home),
                                   repository, script, scriptArgs, yes, rep);
      code == o.result && m.disk == o.disk && m.log == old(m.log) + o.actions
  {
    var repo := new GitHubRepo(config);
    code := repo.RunScript(m, repository, script, scriptArgs, yes, rep);
  }

  /** `cmd_list`: lists, and always reports 0. */
  method CmdList(config: Config, m: Machine, listing: seq<string>) returns (code: int, repos: seq<string>)
    requires config.Valid()
    modifies config
    ensures code == 0
    ensures repos == ListReposSpec(m.disk, m.cwd, SettingsOf(config.file, config.home).cloneDirectory, listing)
  {
    var repo := new GitHubRepo(config);
    repos := repo.ListRepos(m, listing);
    code := 0;
  }

  /** `cmd_config`: shows the settings, and always reports 0. */
  method CmdConfig(config: Config) returns (code: int, lines: seq<string>)
    requires config.Valid()
    modifies config
    ensures code == 0 && lines == ShowLines(SettingsOf(config.file, config.home))
  {
    lines := config.Show();
    code := 0;
  }

  lemma AppendAssoc<T>(a: seq<T>, b: seq<T>, c: seq<T>)
    ensures a + b + c == a + (b + c)
  {
  }

  lemma StartsWithTrans(a: string, b: string, c: string)
    requires StartsWith(a, b) && StartsWith(b, c)
    ensures StartsWith(a, c)
  {
    assert a[..|c|] == a[..|b|][..|c|];
  }
}
