/** Python string operations the connector relies on, with Python's own
    semantics: `str.split(sep)`, `sep.join(parts)`, `sub in s`,
    `s.startswith(p)`, `s.replace(old, new)` and `s.strip()`. */
module Strings {

  datatype Option<+T> = None | Some(value: T)

  /** `sub in s`: some window of `s` equals `sub` (the empty string is in every string). */
  predicate Occurs(sub: string, s: string) {
    exists i: nat :: i <= |s| && MatchAt(sub, s, i)
  }

  /** `sub` appears in `s` starting at index `i`. */
  predicate MatchAt(sub: string, s: string, i: nat) {
    i + |sub| <= |s| && s[i..i + |sub|] == sub
  }

  /** `s.startswith(p)` */
  predicate StartsWith(s: string, p: string) {
    |p| <= |s| && s[..|p|] == p
  }

  /** `s.split(sep)` for a one-character separator: never empty, and
      the pieces are the maximal runs between separators (possibly empty). */
  function Split(s: string, sep: char): (r: seq<string>)
    ensures |r| >= 1
    ensures forall k :: 0 <= k < |r| ==> sep !in r[k]
  {
    if s == [] then [[]]
    else
      var rest := Split(s[1..], sep);
      if s[0] == sep then [[]] + rest
      else [[s[0]] + rest[0]] + rest[1..]
  }

  /** `sep.join(parts)` */
  function JoinWith(parts: seq<string>, sep: char): string {
    if parts == [] then []
    else if |parts| == 1 then parts[0]
    else parts[0] + [sep] + JoinWith(parts[1..], sep)
  }

  /** The last element of `s.split(sep)`, i.e. Python's `s.split(sep)[-1]`. */
  function LastPiece(s: string, sep: char): string {
    var pieces := Split(s, sep);
    pieces[|pieces| - 1]
  }

  lemma {:induction false} SplitNoSep(w: string, sep: char)
    requires sep !in w
    ensures Split(w, sep) == [w]
  {
    if w != [] {
      SplitNoSep(w[1..], sep);
      assert [w[0]] + w[1..] == w;
    }
  }

  lemma {:induction false} SplitAtSep(w: string, sep: char, rest: string)
    requires sep !in w
    ensures Split(w + [sep] + rest, sep) == [w] + Split(rest, sep)
  {
    if w == [] {
      assert w + [sep] + rest == [sep] + rest;
      assert ([sep] + rest)[1..] == rest;
    } else {
      var s := w + [sep] + rest;
      assert s[1..] == w[1..] + [sep] + rest;
      SplitAtSep(w[1..], sep, rest);
      assert [w[0]] + w[1..] == w;
    }
  }

  /** Splitting a joined list gives the list back when no piece holds the separator. */
  lemma {:induction false} SplitJoin(parts: seq<string>, sep: char)
    requires |parts| >= 1
    requires forall k :: 0 <= k < |parts| ==> sep !in parts[k]
    ensures Split(JoinWith(parts, sep), sep) == parts
  {
    if |parts| == 1 {
      SplitNoSep(parts[0], sep);
    } else {
      SplitAtSep(parts[0], sep, JoinWith(parts[1..], sep));
      SplitJoin(parts[1..], sep);
      assert [parts[0]] + parts[1..] == parts;
    }
  }

  /** The last piece is whatever follows the last separator, so any prefix
      ending in a separator is irrelevant to it. */
  lemma {:induction false} LastPieceAfterSep(prefix: string, sep: char, name: string)
    requires sep !in name
    ensures LastPiece(prefix + [sep] + name, sep) == name
  {
    if sep in prefix {
      var j := FirstIndex(prefix, sep);
      var w, more := prefix[..j], prefix[j + 1..];
      var x := more + [sep] + name;
      assert prefix == w + [sep] + more;
      assert prefix + [sep] + name == w + [sep] + x;
      SplitAtSep(w, sep, x);
      LastPieceAfterSep(more, sep, name);
      var p := Split(x, sep);
      assert ([w] + p)[|[w] + p| - 1] == p[|p| - 1];
    } else {
      SplitAtSep(prefix, sep, name);
      SplitNoSep(name, sep);
    }
  }

  function FirstIndex(s: string, c: char): (i: nat)
    requires c in s
    ensures i < |s| && s[i] == c && c !in s[..i]
  {
    if s[0] == c then 0 else FirstIndex(s[1..], c) + 1
  }

  /** Joining the parts of one list after those of another puts one separator between them. */
  lemma {:induction false} JoinAppend(a: seq<string>, b: seq<string>, sep: char)
    requires a != [] && b != []
    ensures JoinWith(a + b, sep) == JoinWith(a, sep) + [sep] + JoinWith(b, sep)
  {
    if |a| == 1 {
      assert (a + b)[1..] == b;
    } else {
      assert (a + b)[1..] == a[1..] + b;
      JoinAppend(a[1..], b, sep);
    }
  }

  /** Growing the last part of a list grows the joined string by the same suffix. */
  lemma {:induction false} JoinGrowLast(a: seq<string>, x: string, y: string, sep: char)
    ensures JoinWith(a + [x + y], sep) == JoinWith(a + [x], sep) + y
  {
    if a == [] {
      assert [] + [x + y] == [x + y];
      assert [] + [x] == [x];
    } else {
      assert (a + [x + y])[1..] == a[1..] + [x + y];
      assert (a + [x])[1..] == a[1..] + [x];
      JoinGrowLast(a[1..], x, y, sep);
    }
  }

  // ---------------------------------------------------------------------------
  // str.replace

  /** `s.find(pat, i)` for a non-empty pattern: the leftmost match at or after `i`. */
  function FindFrom(s: string, pat: string, i: nat): (r: Option<nat>)
    requires pat != [] && i <= |s|
    decreases |s| - i
    ensures r.Some? ==> i <= r.value && MatchAt(pat, s, r.value)
    ensures r.Some? ==> forall j: nat :: i <= j < r.value ==> !MatchAt(pat, s, j)
    ensures r.None? ==> forall j: nat :: i <= j ==> !MatchAt(pat, s, j)
  {
    if i + |pat| > |s| then None
    else if s[i..i + |pat|] == pat then Some(i)
    else FindFrom(s, pat, i + 1)
  }

  /** The replacement of every match at or after `i`, scanning left to right
      and resuming after each match, as CPython does. */
  function ReplaceFrom(s: string, target: string, repl: string, i: nat): string
    requires target != [] && i <= |s|
    decreases |s| - i
  {
    match FindFrom(s, target, i)
    case None => s[i..]
    case Some(j) => s[i..j] + repl + ReplaceFrom(s, target, repl, j + |target|)
  }

  /** `repl` before every character and after the last one: what Python's
      `s.replace("", repl)` gives. */
  function Interleave(s: string, repl: string): string {
    repl + InterleaveTail(s, repl)
  }

  function InterleaveTail(s: string, repl: string): string {
    if s == [] then [] else [s[0]] + repl + InterleaveTail(s[1..], repl)
  }

  /** `s.replace(target, repl)`, Python's `str.replace` */
  function Replace(s: string, target: string, repl: string): string {
    if target == [] then Interleave(s, repl) else ReplaceFrom(s, target, repl, 0)
  }

  // ---------------------------------------------------------------------------
  // Facts about occurrences

  lemma SliceOfSlice(s: string, lo: nat, hi: nat, a: nat, b: nat)
    requires lo <= hi <= |s| && a <= b <= hi - lo
    ensures s[lo..hi][a..b] == s[lo + a..lo + b]
  {
    var x, y := s[lo..hi][a..b], s[lo + a..lo + b];
    assert forall k :: 0 <= k < |x| ==> x[k] == y[k];
  }

  lemma NotInSlice(sub: string, s: string, lo: nat, hi: nat)
    requires lo <= hi <= |s| && !Occurs(sub, s)
    ensures !Occurs(sub, s[lo..hi])
  {
    if Occurs(sub, s[lo..hi]) {
      var i: nat :| i <= hi - lo && MatchAt(sub, s[lo..hi], i);
      SliceOfSlice(s, lo, hi, i, i + |sub|);
      assert MatchAt(sub, s, lo + i);
    }
  }

  /** A non-empty `mask` none of whose characters is in `sub` separates two
      strings: an occurrence of `sub` cannot straddle it. */
  lemma NotAcrossMask(sub: string, a: string, mask: string, b: string)
    requires mask != []
    requires forall c :: c in mask ==> c !in sub
    requires !Occurs(sub, a) && !Occurs(sub, b)
    ensures !Occurs(sub, a + mask + b)
  {
    var s := a + mask + b;
    if sub == [] {
      assert MatchAt(sub, a, 0);
    }
    forall i: nat | i <= |s| ensures !MatchAt(sub, s, i) {
      if i + |sub| <= |a| {
        assert a == s[0..|a|];
        SliceOfSlice(s, 0, |a|, i, i + |sub|);
        assert !MatchAt(sub, a, i);
      } else if i >= |a| + |mask| {
        var k: nat := i - |a| - |mask|;
        assert b == s[|a| + |mask|..|s|];
        if i + |sub| <= |s| {
          SliceOfSlice(s, |a| + |mask|, |s|, k, k + |sub|);
        }
        assert !MatchAt(sub, b, k);
      } else if i + |sub| <= |s| {
        var p := if i < |a| then |a| else i;
        assert s[p] == mask[p - |a|];
        assert s[i..i + |sub|][p - i] == s[p];
        assert s[p] !in sub;
        assert sub[p - i] in sub;
      }
    }
  }

  lemma {:induction false} InterleaveTailKeepsAbsent(sub: string, s: string, mask: string)
    requires mask != []
    requires forall c :: c in mask ==> c !in sub
    requires !Occurs(sub, s)
    ensures !Occurs(sub, InterleaveTail(s, mask))
  {
    if s == [] {
      assert !Occurs(sub, []);
    } else {
      NotInSlice(sub, s, 0, 1);
      NotInSlice(sub, s, 1, |s|);
      assert s[1..|s|] == s[1..];
      InterleaveTailKeepsAbsent(sub, s[1..], mask);
      assert s[..1] == [s[0]];
      NotAcrossMask(sub, [s[0]], mask, InterleaveTail(s[1..], mask));
    }
  }

  lemma {:induction false} ReplaceFromKeepsAbsent(sub: string, s: string, target: string, mask: string, i: nat)
    requires target != [] && i <= |s|
    requires mask != []
    requires forall c :: c in mask ==> c !in sub
    requires !Occurs(sub, s)
    decreases |s| - i
    ensures !Occurs(sub, ReplaceFrom(s, target, mask, i))
  {
    match FindFrom(s, target, i)
    case None =>
      NotInSlice(sub, s, i, |s|);
      assert s[i..|s|] == s[i..];
    case Some(j) =>
      NotInSlice(sub, s, i, j);
      ReplaceFromKeepsAbsent(sub, s, target, mask, j + |target|);
      NotAcrossMask(sub, s[i..j], mask, ReplaceFrom(s, target, mask, j + |target|));
  }

  /** Replacing anything by a mask made of characters foreign to `sub`
      cannot create an occurrence of `sub`, provided `sub` is non-empty. */
  lemma ReplaceKeepsAbsent(sub: string, s: string, target: string, mask: string)
    requires sub != [] && mask != []
    requires forall c :: c in mask ==> c !in sub
    requires !Occurs(sub, s)
    ensures !Occurs(sub, Replace(s, target, mask))
  {
    if target == [] {
      InterleaveTailKeepsAbsent(sub, s, mask);
      assert !Occurs(sub, []);
      NotAcrossMask(sub, [], mask, InterleaveTail(s, mask));
      assert [] + mask + InterleaveTail(s, mask) == Interleave(s, mask);
    } else {
      ReplaceFromKeepsAbsent(sub, s, target, mask, 0);
    }
  }

  lemma {:induction false} ReplaceFromRemoves(pat: string, s: string, mask: string, i: nat)
    requires pat != [] && i <= |s| && mask != []
    requires forall c :: c in mask ==> c !in pat
    decreases |s| - i
    ensures !Occurs(pat, ReplaceFrom(s, pat, mask, i))
  {
    match FindFrom(s, pat, i)
    case None =>
      assert !Occurs(pat, s[i..]) by {
        if Occurs(pat, s[i..]) {
          var k: nat :| k <= |s| - i && MatchAt(pat, s[i..], k);
          assert s[i..] == s[i..|s|];
          SliceOfSlice(s, i, |s|, k, k + |pat|);
          assert MatchAt(pat, s, i + k);
        }
      }
    case Some(j) =>
      assert !Occurs(pat, s[i..j]) by {
        if Occurs(pat, s[i..j]) {
          var k: nat :| k <= j - i && MatchAt(pat, s[i..j], k);
          SliceOfSlice(s, i, j, k, k + |pat|);
          assert MatchAt(pat, s, i + k);
        }
      }
      ReplaceFromRemoves(pat, s, mask, j + |pat|);
      NotAcrossMask(pat, s[i..j], mask, ReplaceFrom(s, pat, mask, j + |pat|));
  }

  /** After `s.replace(pat, mask)` no occurrence of `pat` is left, when `pat`
      is non-empty and shares no character with the non-empty mask. */
  lemma ReplaceRemoves(pat: string, s: string, mask: string)
    requires pat != [] && mask != []
    requires forall c :: c in mask ==> c !in pat
    ensures !Occurs(pat, Replace(s, pat, mask))
  {
    ReplaceFromRemoves(pat, s, mask, 0);
  }

  // ---------------------------------------------------------------------------
  // str.strip

  /** The characters for which Python's `str.isspace()` holds. */
  predicate IsSpace(c: char) {
    ('\t' <= c <= '\r') || ('\U{1C}' <= c <= ' ') || c == '\U{85}' || c == '\U{A0}' ||
    c == '\U{1680}' || ('\U{2000}' <= c <= '\U{200A}') || c == '\U{2028}' || c == '\U{2029}' ||
    c == '\U{202F}' || c == '\U{205F}' || c == '\U{3000}'
  }

  /** The number of white-space characters `s` begins with. */
  function LeadingSpace(s: string): (n: nat)
    ensures n <= |s| && (n == |s| || !IsSpace(s[n]))
    ensures forall k :: 0 <= k < n ==> IsSpace(s[k])
  {
    if s == [] || !IsSpace(s[0]) then 0 else LeadingSpace(s[1..]) + 1
  }

  /** The number of white-space characters `s` ends with. */
  function TrailingSpace(s: string): (n: nat)
    ensures n <= |s| && (n == |s| || !IsSpace(s[|s| - 1 - n]))
    ensures forall k :: |s| - n <= k < |s| ==> IsSpace(s[k])
  {
    if s == [] || !IsSpace(s[|s| - 1]) then 0 else TrailingSpace(s[..|s| - 1]) + 1
  }

  /** `s.strip()`: the slice of `s` left once its leading and trailing
      white space is removed. */
  function Strip(s: string): string {
    var rest := s[LeadingSpace(s)..];
    rest[..|rest| - TrailingSpace(rest)]
  }

  /** What `strip()` keeps begins and ends with a non-space character. */
  lemma StripTrims(s: string)
    ensures Strip(s) == [] || (!IsSpace(Strip(s)[0]) && !IsSpace(Strip(s)[|Strip(s)| - 1]))
  {
  }
}
