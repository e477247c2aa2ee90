/** POSIX path helpers with the behaviour of Node's `path.basename`,
    `path.dirname` and `path.extname` on `/`-separated paths. */
module Paths {

  /** `p` without its trailing `/` characters. */
  function TrimTrailingSlashes(p: string): (r: string)
    ensures |r| <= |p| && r == p[..|r|]
  {
    if p != [] && p[|p| - 1] == '/' then TrimTrailingSlashes(p[..|p| - 1]) else p
  }

  /** The index of the last occurrence of `c` in `s`, or -1. */
  function LastIndexOf(s: string, c: char): (k: int)
    ensures -1 <= k < |s|
    ensures k >= 0 ==> s[k] == c
  {
    if s == [] then -1 else if s[|s| - 1] == c then |s| - 1 else LastIndexOf(s[..|s| - 1], c)
  }

  /** `path.basename(p)`: the last segment, trailing separators ignored. */
  function BaseName(p: string): string {
    var q := TrimTrailingSlashes(p);
    q[LastIndexOf(q, '/') + 1..]
  }

  /** `path.dirname(p)`: everything before the last separator that is followed
      by a name; "." when there is none, "/" (or "//") for rooted paths.
      Repeated separators are not collapsed. */
  function DirName(p: string): string {
    if p == [] then "."
    else
      var q := TrimTrailingSlashes(p[1..]);
      var k := LastIndexOf(q, '/');
      if k < 0 then (if p[0] == '/' then "/" else ".")
      else if p[0] == '/' && k == 0 then "//"
      else p[..k + 1]
  }

  /** `path.extname(p)`: the basename from its last `.` on; empty when the
      basename has no `.`, when its only `.` is its first character, or when
      it is `..`. */
  function ExtName(p: string): (r: string)
    ensures r == [] || r[0] == '.'
  {
    var b := BaseName(p);
    var d := LastIndexOf(b, '.');
    if d <= 0 || b == ".." then "" else b[d..]
  }

  // ---- lemmas ----------------------------------------------------------------

  /** A character that is not in the tail does not move the last index. */
  lemma {:induction false} LastIndexOfAppend(a: string, b: string, c: char)
    requires c !in b
    ensures LastIndexOf(a + b, c) == LastIndexOf(a, c)
    decreases |b|
  {
    if b == [] {
      assert a + b == a;
    } else {
      var b' := b[..|b| - 1];
      assert (a + b)[..|a + b| - 1] == a + b';
      LastIndexOfAppend(a, b', c);
    }
  }

  /** The last index of a character is that of its last occurrence. */
  lemma LastIndexOfLast(a: string, c: char, b: string)
    requires c !in b
    ensures LastIndexOf(a + [c] + b, c) == |a|
  {
    LastIndexOfAppend(a + [c], b, c);
  }

  lemma {:induction false} LastIndexOfAbsent(s: string, c: char)
    requires c !in s
    ensures LastIndexOf(s, c) == -1
  {
    if s != [] {
      LastIndexOfAbsent(s[..|s| - 1], c);
    }
  }

  /** A name joined under a directory splits back into the two. */
  lemma DirAndBaseOfJoin(d: string, n: string)
    requires d != [] && d[|d| - 1] != '/'
    requires n != [] && '/' !in n
    ensures DirName(d + "/" + n) == d
    ensures BaseName(d + "/" + n) == n
  {
    var p := d + "/" + n;
    assert p[|p| - 1] == n[|n| - 1];
    assert TrimTrailingSlashes(p) == p;
    LastIndexOfLast(d, '/', n);
    assert d + "/" + n == d + ['/'] + n;
    assert p[|d| + 1..] == n;
    var q := p[1..];
    assert q == d[1..] + ['/'] + n;
    assert q[|q| - 1] == n[|n| - 1];
    assert TrimTrailingSlashes(q) == q;
    LastIndexOfLast(d[1..], '/', n);
    assert |d| == 1 ==> p[0] == d[0] && d[0] != '/';
    assert p[..|d|] == d;
  }

  /** A bare name is its own basename and lives in ".". */
  lemma DirAndBaseOfName(n: string)
    requires n != [] && '/' !in n
    ensures DirName(n) == "."
    ensures BaseName(n) == n
  {
    assert n[|n| - 1] != '/';
    assert TrimTrailingSlashes(n) == n;
    LastIndexOfAbsent(n, '/');
    var q := n[1..];
    assert q == [] || q[|q| - 1] == n[|n| - 1];
    assert TrimTrailingSlashes(q) == q;
    assert '/' !in q;
    LastIndexOfAbsent(q, '/');
  }

  /** The extension is the trailing `.xyz` of the basename when there is a
      non-empty stem before it. */
  lemma ExtNameOfStem(p: string, stem: string, ext: string)
    requires BaseName(p) == stem + ext
    requires stem != [] && ext != [] && ext[0] == '.' && '.' !in ext[1..]
    requires stem + ext != ".."
    ensures ExtName(p) == ext
  {
    var b := stem + ext;
    assert b == stem + ['.'] + ext[1..];
    LastIndexOfLast(stem, '.', ext[1..]);
    assert b[|stem|..] == ext;
  }

  /** A basename whose only dot is its first character has no extension. */
  lemma ExtNameOfDotFile(p: string)
    requires BaseName(p) != [] && BaseName(p)[0] == '.' && '.' !in BaseName(p)[1..]
    ensures ExtName(p) == ""
  {
    var b := BaseName(p);
    assert b == [] + ['.'] + b[1..];
    LastIndexOfLast([], '.', b[1..]);
  }
}
