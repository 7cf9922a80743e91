/** The machine the connector runs on, made abstract: a file system of
    resolved locations, the process's working directory, the log of every
    external operation performed, and the answers the outside world gives
    (git's exit status, the child's exit code, the user's reply). */
module Host {
  import opened Paths

  /** What the file system holds: directories, regular files, the files whose
      mode has been set to 0o755, and the `origin` URL in each clone's `.git/config`. */
  datatype Disk = Disk(dirs: set<Loc>, files: set<Loc>, executable: set<Loc>, origin: map<Loc, string>)

  /** What a successful `git clone` writes under the new clone, relative to its root. */
  datatype Tree = Tree(dirs: set<Loc>, files: set<Loc>)

  /** How a `git` subprocess ended: with an exit code and its standard error,
      or by raising `subprocess.SubprocessError`. */
  datatype GitRun = Exited(code: int, stderr: string) | SubprocessFailed

  /** How the script's subprocess ended. */
  datatype ChildRun = ChildExited(code: int) | ChildSubprocessFailed

  /** One externally visible operation. */
  datatype Action =
    | RemoveTree(target: Loc)                     // shutil.rmtree
    | MakeDirs(target: Loc)                       // mkdir(parents=True, exist_ok=True)
    | GitClone(url: string, dest: string)         // git clone <url> <dest>
    | ReportCloneError(message: string)           // the printed git error text
    | GitSetUrl(dir: string, url: string)         // git remote set-url origin <url>, in <dir>
    | GitPull(dir: string)                        // git pull, in <dir>
    | Chmod(target: Loc, mode: int)               // os.chmod
    | Execute(argv: seq<string>, dir: string)     // subprocess.run(argv, cwd=dir)

  predicate IsGitCall(a: Action) {
    a.GitClone? || a.GitSetUrl? || a.GitPull?
  }

  /** No `git` subprocess among the actions. */
  predicate NoGitCall(actions: seq<Action>) {
    forall k :: 0 <= k < |actions| ==> !IsGitCall(actions[k])
  }

  /** The script is neither made executable nor run. */
  predicate NoExecution(actions: seq<Action>) {
    forall k :: 0 <= k < |actions| ==> !actions[k].Chmod? && !actions[k].Execute?
  }

  /** An action that runs nothing, followed by actions that run nothing. */
  lemma NoExecutionPrepend(a: Action, rest: seq<Action>)
    requires !a.Chmod? && !a.Execute? && NoExecution(rest)
    ensures NoExecution([a] + rest)
  {
    assert forall k :: 1 <= k < 1 + |rest| ==> ([a] + rest)[k] == rest[k - 1];
  }

  const ExecutableMode := 0x1ED  // 0o755

  /** Something (a file or a directory) is at `l`. */
  predicate Present(d: Disk, l: Loc) {
    l in d.dirs || l in d.files
  }

  /** The disk once `l` and everything under it is gone. */
  function Removed(d: Disk, l: Loc): (r: Disk)
    ensures !Present(r, l)
    ensures forall x :: Present(r, x) <==> Present(d, x) && !Within(x, l)
  {
    Disk(set x | x in d.dirs && !(l <= x),
         set x | x in d.files && !(l <= x),
         set x | x in d.executable && !(l <= x),
         map x | x in d.origin && !(l <= x) :: d.origin[x])
  }

  /** The disk once `l` and all its ancestors are directories (if they were free). */
  function WithParents(d: Disk, l: Loc): (r: Disk)
    ensures forall i :: 0 <= i <= |l| ==> Present(r, l[..i])
  {
    d.(dirs := d.dirs + (set i | 0 <= i <= |l| && l[..i] !in d.files :: l[..i]))
  }

  /** The disk once `git clone` has written a working copy at `l` whose
      `origin` is `url`. */
  function Cloned(d: Disk, l: Loc, url: string, t: Tree): (r: Disk)
    ensures l in r.dirs && l + [".git"] in r.dirs
    ensures l in r.origin && r.origin[l] == url
  {
    Disk(d.dirs + {l, l + [".git"]} + (set x | x in t.dirs :: l + x),
         d.files + (set x | x in t.files :: l + x),
         d.executable,
         d.origin[l := url])
  }

  class Machine {
    /** The process's working directory, against which relative paths resolve. */
    const cwd: Loc
    var disk: Disk
    var log: seq<Action>

    constructor (cwd: Loc, disk: Disk)
      ensures this.cwd == cwd && this.disk == disk && log == []
    {
      this.cwd := cwd;
      this.disk := disk;
      log := [];
    }

    /** `p.exists()` */
    predicate Exists(p: Path)
      reads this
    {
      Present(disk, Resolve(p, cwd))
    }

    /** `p.is_dir()` */
    predicate IsDir(p: Path)
      reads this
    {
      Resolve(p, cwd) in disk.dirs
    }

    /** `p.is_file()` */
    predicate IsFile(p: Path)
      reads this
    {
      Resolve(p, cwd) in disk.files
    }

    /** `shutil.rmtree(p)`; `ok` says whether it raised no `OSError`. */
    method RemoveTree(p: Path, ok: bool) returns (removed: bool)
      modifies this
      ensures removed == ok
      ensures log == old(log) + [Action.RemoveTree(Resolve(p, cwd))]
      ensures disk == if ok then Removed(old(disk), Resolve(p, cwd)) else old(disk)
    {
      var l := Resolve(p, cwd);
      log := log + [Action.RemoveTree(l)];
      if ok {
        disk := Removed(disk, l);
      }
      removed := ok;
    }

    /** `p.mkdir(parents=True, exist_ok=True)` */
    method MakeDirs(p: Path)
      modifies this
      ensures log == old(log) + [Action.MakeDirs(Resolve(p, cwd))]
      ensures disk == WithParents(old(disk), Resolve(p, cwd))
    {
      var l := Resolve(p, cwd);
      log := log + [Action.MakeDirs(l)];
      disk := WithParents(disk, l);
    }

    /** `git clone <url> <dest>`; `run` is how it ends and `t` what it checks out. */
    method RunGitClone(url: string, dest: Path, run: GitRun, t: Tree) returns (result: GitRun)
      modifies this
      ensures result == run
      ensures log == old(log) + [GitClone(url, Str(dest))]
      ensures disk == if run.Exited? && run.code == 0 then Cloned(old(disk), Resolve(dest, cwd), url, t) else old(disk)
    {
      log := log + [GitClone(url, Str(dest))];
      if run.Exited? && run.code == 0 {
        disk := Cloned(disk, Resolve(dest, cwd), url, t);
      }
      result := run;
    }

    /** `git remote set-url origin <url>` in `dir`; `ok` says whether it exited with 0. */
    method RunGitSetUrl(dir: Path, url: string, ok: bool) returns (succeeded: bool)
      modifies this
      ensures succeeded == ok
      ensures log == old(log) + [GitSetUrl(Str(dir), url)]
      ensures disk == if ok then old(disk).(origin := old(disk).origin[Resolve(dir, cwd) := url]) else old(disk)
    {
      log := log + [GitSetUrl(Str(dir), url)];
      if ok {
        disk := disk.(origin := disk.origin[Resolve(dir, cwd) := url]);
      }
      succeeded := ok;
    }

    /** `git pull` in `dir`. */
    method RunGitPull(dir: Path, run: GitRun) returns (result: GitRun)
      modifies this
      ensures result == run
      ensures log == old(log) + [GitPull(Str(dir))] && disk == old(disk)
    {
      log := log + [GitPull(Str(dir))];
      result := run;
    }

    /** Printing git's (masked) error text. */
    method Report(message: string)
      modifies this
      ensures log == old(log) + [ReportCloneError(message)] && disk == old(disk)
    {
      log := log + [ReportCloneError(message)];
    }

    /** `os.chmod(p, 0o755)` */
    method MakeExecutable(p: Path)
      modifies this
      ensures log == old(log) + [Action.Chmod(Resolve(p, cwd), ExecutableMode)]
      ensures disk == old(disk).(executable := old(disk).executable + {Resolve(p, cwd)})
    {
      var l := Resolve(p, cwd);
      log := log + [Action.Chmod(l, ExecutableMode)];
      disk := disk.(executable := disk.executable + {l});
    }

    /** `subprocess.run(argv, cwd=dir)`; `child` is how the child ends. */
    method Spawn(argv: seq<string>, dir: Path, child: ChildRun) returns (result: ChildRun)
      modifies this
      ensures result == child
      ensures log == old(log) + [Execute(argv, Str(dir))] && disk == old(disk)
    {
      log := log + [Execute(argv, Str(dir))];
      result := child;
    }
  }
}
