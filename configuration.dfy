/** The stored configuration and the `Config` object that reads it lazily. */
module Configuration {
  import opened Strings
  import opened Paths

  /** The three settings every command reads. */
  datatype Settings = Settings(username: string, token: string, cloneDirectory: Path)

  /** `d.get(key, default)` on the parsed JSON object. */
  function Lookup(json: map<string, string>, key: string, default: string): string {
    if key in json then json[key] else default
  }

  /** `Path.home() / "mygit-repos"`, written with the part appended (see `DefaultIsJoin`). */
  function DefaultClonePath(home: Path): Path {
    Path(home.absolute, home.parts + ["mygit-repos"])
  }

  /** Joining `mygit-repos` to the home directory appends that one part. */
  lemma DefaultIsJoin(home: Path)
    ensures Join(home, "mygit-repos") == DefaultClonePath(home)
  {
    SplitNoSep("mygit-repos", '/');
  }

  /** `str(Path.home() / "mygit-repos")` */
  function DefaultCloneDirectory(home: Path): string {
    Str(DefaultClonePath(home))
  }

  /** What the `username`, `token` and `clone_directory` properties give for
      the configuration file's contents `json` and the user's home directory. */
  function SettingsOf(json: map<string, string>, home: Path): Settings {
    Settings(
      Lookup(json, "github_username", ""),
      Lookup(json, "github_token", ""),
      Parse(Lookup(json, "clone_directory", DefaultCloneDirectory(home))))
  }

  /** Without a `clone_directory` entry, repositories go to `~/mygit-repos`:
      printing the default and parsing it back loses nothing. */
  lemma DefaultCloneDirectoryUnderHome(json: map<string, string>, home: Path)
    requires "clone_directory" !in json && WellFormed(home.parts)
    ensures SettingsOf(json, home).cloneDirectory == Join(home, "mygit-repos")
    ensures SettingsOf(json, home).cloneDirectory.parts == home.parts + ["mygit-repos"]
  {
    DefaultIsJoin(home);
    var p := Join(home, "mygit-repos");
    assert p.parts == home.parts + ["mygit-repos"];
    assert WellFormed(p.parts) by {
      assert forall k :: 0 <= k < |home.parts| ==> p.parts[k] == home.parts[k];
    }
    ParseStr(p);
  }

  /** A configuration file without any of the three entries gives an empty
      user name and token and the clone directory `~/mygit-repos`. */
  lemma MissingEntriesDefaults(json: map<string, string>, home: Path)
    requires "github_username" !in json && "github_token" !in json && "clone_directory" !in json
    requires WellFormed(home.parts)
    ensures SettingsOf(json, home) == Settings("", "", Join(home, "mygit-repos"))
  {
    DefaultCloneDirectoryUnderHome(json, home);
  }

  /** Python's `c * n` for a one-character string. */
  function Repeat(c: char, n: nat): (r: string)
    ensures |r| == n && forall k :: 0 <= k < n ==> r[k] == c
  {
    if n == 0 then [] else [c] + Repeat(c, n - 1)
  }

  /** The lines `Config.show` prints; the token is represented by a fixed
      mask of sixteen asterisks. */
  function ShowLines(s: Settings): seq<string> {
    ["\nCurrent Configuration:",
     Repeat('-', 40),
     "GitHub Username: " + s.username,
     "GitHub Token: " + Repeat('*', 16) + " (configured)",
     "Clone Directory: " + Str(s.cloneDirectory),
     Repeat('-', 40)]
  }

  /** What `show` prints does not depend on the token at all. */
  lemma ShowIgnoresToken(s: Settings, other: string)
    ensures ShowLines(s) == ShowLines(s.(token := other))
  {
  }

  /** The configuration manager. `file` is what `~/.mygit/config.json` holds;
      `cache` is the `_config` field, filled on first access and kept. */
  class Config {
    const file: map<string, string>
    const home: Path
    var cache: Option<map<string, string>>

    ghost predicate Valid()
      reads this
    {
      cache.None? || cache == Some(file)
    }

    constructor (file: map<string, string>, home: Path)
      ensures Valid() && cache.None?
      ensures this.file == file && this.home == home
    {
      this.file := file;
      this.home := home;
      cache := None;
    }

    /** `load`: reads the file into the cache and returns it. */
    method Load() returns (json: map<string, string>)
      modifies this
      ensures Valid() && cache == Some(file) && json == file
    {
      cache := Some(file);
      json := file;
    }

    /** What `username`, `token` and `clone_directory` share: load on first use. */
    method Ensure()
      requires Valid()
      modifies this
      ensures Valid() && cache == Some(file)
      ensures old(cache).Some? ==> unchanged(this)
    {
      if cache.None? {
        var _ := Load();
      }
    }

    /** The `username` property. */
    method Username() returns (u: string)
      requires Valid()
      modifies this
      ensures Valid() && cache == Some(file)
      ensures u == SettingsOf(file, home).username
      ensures "github_username" !in file ==> u == ""
    {
      Ensure();
      u := Lookup(cache.value, "github_username", "");
    }

    /** The `token` property. */
    method Token() returns (t: string)
      requires Valid()
      modifies this
      ensures Valid() && cache == Some(file)
      ensures t == SettingsOf(file, home).token
      ensures "github_token" !in file ==> t == ""
    {
      Ensure();
      t := Lookup(cache.value, "github_token", "");
    }

    /** The `clone_directory` property. */
    method CloneDirectory() returns (d: Path)
      requires Valid()
      modifies this
      ensures Valid() && cache == Some(file)
      ensures d == SettingsOf(file, home).cloneDirectory
    {
      Ensure();
      d := Parse(Lookup(cache.value, "clone_directory", DefaultCloneDirectory(home)));
    }

    /** `show`: the lines printed. */
    method Show() returns (lines: seq<string>)
      requires Valid()
      modifies this
      ensures Valid() && cache == Some(file)
      ensures lines == ShowLines(SettingsOf(file, home))
    {
      Ensure();
      var user := Username();
      var dir := CloneDirectory();
      lines := ["\nCurrent Configuration:", Repeat('-', 40), "GitHub Username: " + user,
                "GitHub Token: " + Repeat('*', 16) + " (configured)",
                "Clone Directory: " + Str(dir), Repeat('-', 40)];
    }
  }
}
