/** POSIX `pathlib` paths as the connector uses them: parsing a string,
    the `/` operator, `str()`, and `Path.resolve()` read lexically (each
    `..` removes the part before it; symbolic links are not followed). */
module Paths {
  import opened Strings

  /** A pure POSIX path: whether it starts at the root, and its parts.
      Parsing never produces an empty part, a `.` part or a part holding `/`. */
  datatype Path = Path(absolute: bool, parts: seq<string>)

  /** A place on the file system: the parts of a resolved absolute path. */
  type Loc = seq<string>

  predicate GoodPart(x: string) {
    x != [] && x != "." && '/' !in x
  }

  predicate WellFormed(parts: seq<string>) {
    forall k :: 0 <= k < |parts| ==> GoodPart(parts[k])
  }

  /** The pieces of a split path string that pathlib keeps. */
  function KeepParts(pieces: seq<string>): (r: seq<string>)
    requires forall k :: 0 <= k < |pieces| ==> '/' !in pieces[k]
    ensures WellFormed(r)
    ensures WellFormed(pieces) ==> r == pieces
  {
    if pieces == [] then []
    else if pieces[0] == [] || pieces[0] == "." then KeepParts(pieces[1..])
    else [pieces[0]] + KeepParts(pieces[1..])
  }

  /** `Path(s)` */
  function Parse(s: string): (p: Path)
    ensures WellFormed(p.parts)
    ensures p.absolute <==> StartsWith(s, "/")
  {
    Path(|s| > 0 && s[0] == '/', KeepParts(Split(s, '/')))
  }

  /** `p / rel`: an absolute right operand replaces the left one. */
  function Join(p: Path, rel: string): (r: Path)
    ensures StartsWith(rel, "/") ==> r == Parse(rel)
    ensures !StartsWith(rel, "/") ==> r.absolute == p.absolute && r.parts == p.parts + Parse(rel).parts
  {
    var q := Parse(rel);
    if q.absolute then q else Path(p.absolute, p.parts + q.parts)
  }

  /** `str(p)` */
  function Str(p: Path): string {
    if p.absolute then "/" + JoinWith(p.parts, '/')
    else if p.parts == [] then "."
    else JoinWith(p.parts, '/')
  }

  /** `str()` of a resolved path. */
  function LocStr(l: Loc): string {
    Str(Path(true, l))
  }

  /** Printing a well-formed path and parsing the text again gives the same path. */
  lemma {:induction false} ParseStr(p: Path)
    requires WellFormed(p.parts)
    ensures Parse(Str(p)) == p
  {
    var s := Str(p);
    if p.parts == [] {
      if p.absolute {
        assert s == [] + ['/'] + [];
        SplitAtSep([], '/', []);
        assert Split(s, '/') == [[], []];
      } else {
        SplitNoSep(".", '/');
      }
    } else {
      SplitJoin(p.parts, '/');
      assert p.parts[0] != [] && '/' !in p.parts[0];
      JoinHead(p.parts, '/');
      if p.absolute {
        assert s == [] + ['/'] + JoinWith(p.parts, '/');
        SplitAtSep([], '/', JoinWith(p.parts, '/'));
      }
    }
  }

  /** A join begins with the first part. */
  lemma {:induction false} JoinHead(parts: seq<string>, sep: char)
    requires parts != [] && parts[0] != []
    ensures JoinWith(parts, sep) != [] && JoinWith(parts, sep)[0] == parts[0][0]
  {
  }

  // ---------------------------------------------------------------------------
  // Resolution

  /** One step of lexical resolution: `..` goes up (the root is its own parent). */
  function Step(acc: Loc, part: string): Loc {
    if part == ".." then (if acc == [] then [] else acc[..|acc| - 1])
    else acc + [part]
  }

  /** The location a sequence of parts names, read from the root. */
  function Normalize(parts: seq<string>): (r: Loc)
    ensures forall k :: 0 <= k < |r| ==> r[k] != ".."
    ensures WellFormed(parts) ==> WellFormed(r)
  {
    if parts == [] then []
    else Step(Normalize(parts[..|parts| - 1]), parts[|parts| - 1])
  }

  /** `p.resolve()` with `cwd` the process's working directory. */
  function Resolve(p: Path, cwd: Loc): Loc {
    Normalize(if p.absolute then p.parts else cwd + p.parts)
  }

  /** Resolution of parts with no `..` keeps them all: the parts are appended. */
  lemma {:induction false} NormalizeDescends(base: seq<string>, more: seq<string>)
    requires forall k :: 0 <= k < |more| ==> more[k] != ".."
    ensures Normalize(base + more) == Normalize(base) + more
  {
    if more != [] {
      var q := base + more;
      assert q[..|q| - 1] == base + more[..|more| - 1];
      NormalizeDescends(base, more[..|more| - 1]);
      assert more == more[..|more| - 1] + [more[|more| - 1]];
    } else {
      assert base + more == base;
    }
  }

  /** Joining a single good part appends it. */
  lemma JoinPart(p: Path, name: string)
    requires GoodPart(name)
    ensures Join(p, name) == Path(p.absolute, p.parts + [name])
  {
    SplitNoSep(name, '/');
  }

  /** Resolving a path with one more part, not `..`, appends that part to the location. */
  lemma ResolvePart(p: Path, cwd: Loc, name: string)
    requires GoodPart(name) && name != ".."
    ensures Resolve(Join(p, name), cwd) == Resolve(p, cwd) + [name]
  {
    JoinPart(p, name);
    var base := if p.absolute then p.parts else cwd + p.parts;
    NormalizeDescends(base, [name]);
    if !p.absolute {
      assert cwd + (p.parts + [name]) == base + [name];
    }
  }

  /** A resolved location resolves to itself. */
  lemma NormalizeResolved(l: Loc)
    requires forall k :: 0 <= k < |l| ==> l[k] != ".."
    ensures Normalize(l) == l
  {
    NormalizeDescends([], l);
    assert [] + l == l;
  }

  /** `l` lies inside the directory `root` (or is `root`), part by part. */
  predicate Within(l: Loc, root: Loc) {
    root <= l
  }

  /** The textual containment test `str(script).startswith(str(root))`. */
  predicate PrefixCheck(script: Loc, root: Loc) {
    StartsWith(LocStr(script), LocStr(root))
  }

  /** A relative path without `..` joined to a directory resolves inside that directory. */
  lemma JoinedDescendantIsWithin(dir: Path, rel: string, cwd: Loc)
    requires !StartsWith(rel, "/")
    requires forall k :: 0 <= k < |Parse(rel).parts| ==> Parse(rel).parts[k] != ".."
    ensures Within(Resolve(Join(dir, rel), cwd), Resolve(dir, cwd))
  {
    var more := Parse(rel).parts;
    var base := if dir.absolute then dir.parts else cwd + dir.parts;
    if dir.absolute {
      NormalizeDescends(dir.parts, more);
    } else {
      assert cwd + (dir.parts + more) == (cwd + dir.parts) + more;
      NormalizeDescends(cwd + dir.parts, more);
    }
  }

  /** Every location inside the root passes the textual check. */
  lemma WithinPassesPrefixCheck(script: Loc, root: Loc)
    requires Within(script, root)
    ensures PrefixCheck(script, root)
  {
    var rest := script[|root|..];
    assert script == root + rest;
    var full, pre := LocStr(script), LocStr(root);
    if root == [] {
      assert pre == "/";
      assert full[..1] == "/";
    } else if rest == [] {
      assert script == root + [] == root;
    } else {
      JoinAppend(root, rest, '/');
      assert full == pre + "/" + JoinWith(rest, '/');
      assert full[..|pre|] == pre;
    }
  }

  /** `l` lies in a sibling of `root` (or under one) whose name extends the
      root's last part: the parts agree up to the last part of `root`, and there
      `l`'s part begins with, but differs from, `root`'s. */
  predicate InExtendedSibling(l: Loc, root: Loc) {
    root != [] && |l| >= |root| && l[..|root| - 1] == root[..|root| - 1] &&
    StartsWith(l[|root| - 1], root[|root| - 1]) && l[|root| - 1] != root[|root| - 1]
  }

  /** Concatenating good parts keeps them good. */
  lemma ConcatWellFormed(a: seq<string>, b: seq<string>)
    requires WellFormed(a) && WellFormed(b)
    ensures WellFormed(a + b)
  {
    forall k | 0 <= k < |a + b|
      ensures GoodPart((a + b)[k])
    {
      if k < |a| {
        assert (a + b)[k] == a[k];
      } else {
        assert (a + b)[k] == b[k - |a|];
      }
    }
  }

  /** Joining keeps a path's parts good. */
  lemma JoinWellFormed(p: Path, rel: string)
    requires WellFormed(p.parts)
    ensures WellFormed(Join(p, rel).parts)
  {
    if !StartsWith(rel, "/") {
      ConcatWellFormed(p.parts, Parse(rel).parts);
    }
  }

  /** Resolving good parts against a good working directory gives good parts. */
  lemma ResolveWellFormed(p: Path, cwd: Loc)
    requires WellFormed(cwd) && WellFormed(p.parts)
    ensures WellFormed(Resolve(p, cwd))
  {
    if !p.absolute {
      ConcatWellFormed(cwd, p.parts);
    }
  }

  /** A join of good parts that begins with the join of `a` has at least as
      many parts, agrees with `a` on all but `a`'s last part, and there its
      part begins with `a`'s. */
  lemma {:induction false} JoinPrefix(a: seq<string>, b: seq<string>)
    requires WellFormed(a) && WellFormed(b) && a != []
    requires StartsWith(JoinWith(b, '/'), JoinWith(a, '/'))
    ensures |b| >= |a| && b[..|a| - 1] == a[..|a| - 1] && StartsWith(b[|a| - 1], a[|a| - 1])
  {
    var ja, jb := JoinWith(a, '/'), JoinWith(b, '/');
    var a0 := a[0];
    assert GoodPart(a0);
    JoinHead(a, '/');
    assert |jb| >= |ja| > 0;
    var b0 := b[0];
    assert GoodPart(b0);
    assert forall i :: 0 <= i < |ja| ==> jb[i] == ja[i];
    if |a| == 1 {
      assert ja == a0;
      assert |b| == 1 ==> jb == b0;
      assert |b| > 1 ==> jb == b0 + ['/'] + JoinWith(b[1..], '/');
      assert forall i :: 0 <= i < |b0| ==> jb[i] == b0[i];
      assert |b| > 1 ==> jb[|b0|] == '/';
      assert |a0| <= |b0|;
      assert jb[..|a0|] == b0[..|a0|];
    } else {
      var ra, rb := a[1..], b[1..];
      assert ja == a0 + ['/'] + JoinWith(ra, '/');
      assert ja[|a0|] == '/' && jb[|a0|] == '/';
      assert |b| == 1 ==> jb == b0;
      assert |b| > 1;
      assert jb == b0 + ['/'] + JoinWith(rb, '/');
      assert forall i :: 0 <= i < |b0| ==> jb[i] == b0[i];
      assert forall i :: 0 <= i < |a0| ==> ja[i] == a0[i];
      assert forall i :: 0 <= i < |b0| ==> b0[i] != '/';
      assert forall i :: 0 <= i < |a0| ==> a0[i] != '/';
      assert jb[|b0|] == '/';
      assert |a0| == |b0|;
      assert a0 == ja[..|a0|] == jb[..|a0|] == b0;
      var jra, jrb := JoinWith(ra, '/'), JoinWith(rb, '/');
      assert jra == ja[|a0| + 1..] && jrb == jb[|a0| + 1..];
      assert jrb[..|jra|] == jb[|a0| + 1..|ja|] == ja[|a0| + 1..] == jra;
      assert WellFormed(ra) by {
        forall k | 0 <= k < |ra| ensures GoodPart(ra[k]) { assert ra[k] == a[k + 1]; }
      }
      assert WellFormed(rb) by {
        forall k | 0 <= k < |rb| ensures GoodPart(rb[k]) { assert rb[k] == b[k + 1]; }
      }
      JoinPrefix(ra, rb);
      assert b[..|a| - 1] == [b0] + rb[..|ra| - 1];
      assert a[..|a| - 1] == [a0] + ra[..|ra| - 1];
      assert b[|a| - 1] == rb[|ra| - 1] && a[|a| - 1] == ra[|ra| - 1];
    }
  }

  /** What passing the textual check guarantees: the location lies inside the
      root, or in a sibling whose name extends the root's last part. */
  lemma PrefixCheckSound(script: Loc, root: Loc)
    requires WellFormed(script) && WellFormed(root)
    requires PrefixCheck(script, root)
    ensures Within(script, root) || InExtendedSibling(script, root)
  {
    if root != [] {
      var js, jr := JoinWith(script, '/'), JoinWith(root, '/');
      assert LocStr(script) == "/" + js && LocStr(root) == "/" + jr;
      assert js[..|jr|] == ("/" + js)[1..1 + |jr|];
      JoinPrefix(root, script);
      var n := |root| - 1;
      if script[n] == root[n] {
        assert script[..|root|] == script[..n] + [script[n]];
        assert root == root[..n] + [root[n]];
      }
    }
  }

  /** The textual check is weaker than containment: a sibling of the root
      whose name extends the root's last part passes it, yet lies outside. */
  lemma SiblingPassesPrefixCheck(parent: Loc, name: string, extra: string)
    requires extra != []
    ensures PrefixCheck(parent + [name + extra], parent + [name])
    ensures !Within(parent + [name + extra], parent + [name])
  {
    JoinGrowLast(parent, name, extra, '/');
    var a, b := parent + [name + extra], parent + [name];
    assert a[|parent|] != b[|parent|] by {
      assert |name + extra| != |name|;
    }
  }
}
