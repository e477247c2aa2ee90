/** src/analyzer/imports.ts: specifier extraction with the two global regexes
      import\s+(?:[\s\S]*?from\s+)?['"]([^'"]+)['"]
      require\(['"]([^'"]+)['"]\)
    and the per-file import nodes.

    A regex is described by what it matches at one position (ImportAt,
    RequireAt), worked out from JavaScript's backtracking semantics; FindFrom
    is one `exec` from `lastIndex` (the leftmost match), Scan is the `while`
    loop of repeated `exec` calls (non-overlapping matches, left to right). */
module Imports {
  import opened Wrappers
  import opened Seqs
  import opened Strings
  import opened Paths
  import opened Types

  datatype Pattern = ImportPattern | RequirePattern

  /** One match: the text from `start` up to `end` (exclusive), and group 1. */
  datatype Hit = Hit(start: nat, end: nat, spec: string)

  /** A quoted specifier matched at some position: group 1 and the end. */
  datatype Capture = Capture(text: string, end: nat)

  predicate IsQuote(c: char) { c == '\'' || c == '"' }

  predicate QuoteFree(s: string) {
    forall i :: 0 <= i < |s| ==> !IsQuote(s[i])
  }

  predicate LiteralAt(t: string, i: nat, lit: string) {
    i + |lit| <= |t| && t[i..i + |lit|] == lit
  }

  /** How many `\s` characters start at `i`: what a greedy `\s*` takes. */
  function SpaceRun(t: string, i: nat): (n: nat)
    requires i <= |t|
    ensures i + n <= |t|
    ensures forall k :: i <= k < i + n ==> IsSpace(t[k])
    ensures i + n == |t| || !IsSpace(t[i + n])
    decreases |t| - i
  {
    if i < |t| && IsSpace(t[i]) then 1 + SpaceRun(t, i + 1) else 0
  }

  /** How many non-quote characters start at `i`: what a greedy `[^'"]*` takes. */
  function NonQuoteRun(t: string, i: nat): (n: nat)
    requires i <= |t|
    ensures i + n <= |t|
    ensures forall k :: i <= k < i + n ==> !IsQuote(t[k])
    ensures i + n == |t| || IsQuote(t[i + n])
    decreases |t| - i
  {
    if i < |t| && !IsQuote(t[i]) then 1 + NonQuoteRun(t, i + 1) else 0
  }

  /** `['"]([^'"]+)['"]` at `q`. Backtracking into `[^'"]+` cannot help, so
      the capture runs from the opening quote to the next quote, either kind. */
  function QuotedAt(t: string, q: nat): (r: Option<Capture>)
    ensures r.Some? ==>
      && q + 2 + |r.value.text| == r.value.end <= |t|
      && IsQuote(t[q]) && IsQuote(t[r.value.end - 1])
      && r.value.text == t[q + 1..r.value.end - 1]
      && r.value.text != [] && QuoteFree(r.value.text)
  {
    if q < |t| && IsQuote(t[q]) then
      var n := NonQuoteRun(t, q + 1);
      if n > 0 && q + 1 + n < |t| then Some(Capture(t[q + 1..q + 1 + n], q + 2 + n)) else None
    else None
  }

  /** `from\s+['"]([^'"]+)['"]` at `i`. Only the longest `\s+` can be
      followed by a quote. */
  function FromClauseAt(t: string, i: nat): (r: Option<Capture>)
    requires i <= |t|
    ensures r.Some? ==> i < r.value.end <= |t| && r.value.text != [] && QuoteFree(r.value.text)
  {
    if LiteralAt(t, i, "from") then
      var w := SpaceRun(t, i + 4);
      if w > 0 then QuotedAt(t, i + 4 + w) else None
    else None
  }

  /** `(?:[\s\S]*?from\s+)` followed by the quoted specifier, from `i`: the
      lazy `[\s\S]*?` takes the fewest characters, of any kind and across
      lines, after which a from-clause matches. */
  function LazyFrom(t: string, i: nat): (r: Option<Capture>)
    requires i <= |t|
    ensures r.Some? ==> i < r.value.end <= |t| && r.value.text != [] && QuoteFree(r.value.text)
    decreases |t| - i
  {
    match FromClauseAt(t, i)
    case Some(c) => Some(c)
    case None => if i == |t| then None else LazyFrom(t, i + 1)
  }

  /** The import pattern at `s`. Only the longest `\s+` after `import` can
      succeed (a shorter one leaves a blank where neither `from` nor a quote
      can start); the optional group is tried before it is skipped. */
  function ImportAt(t: string, s: nat): (r: Option<Hit>)
    ensures r.Some? ==> LiteralAt(t, s, "import") && s + 6 < |t| && IsSpace(t[s + 6])
    ensures r.Some? ==>
      && r.value.start == s < r.value.end <= |t|
      && r.value.spec != [] && QuoteFree(r.value.spec)
  {
    if !LiteralAt(t, s, "import") then None
    else
      var k := SpaceRun(t, s + 6);
      if k == 0 then None
      else
        var p := s + 6 + k;
        var c := match LazyFrom(t, p) case Some(c) => Some(c) case None => QuotedAt(t, p);
        match c
        case None => None
        case Some(c) => Some(Hit(s, c.end, c.text))
  }

  /** The require pattern at `s`: `require(`, a quoted specifier, then `)`
      straight after the closing quote. */
  function RequireAt(t: string, s: nat): (r: Option<Hit>)
    ensures r.Some? ==>
      && s + 11 + |r.value.spec| == r.value.end <= |t|
      && r.value.start == s
      && LiteralAt(t, s, "require(") && IsQuote(t[s + 8])
      && IsQuote(t[r.value.end - 2]) && t[r.value.end - 1] == ')'
      && r.value.spec == t[s + 9..r.value.end - 2]
  {
    if !LiteralAt(t, s, "require(") then None
    else
      match QuotedAt(t, s + 8)
      case None => None
      case Some(c) => if c.end < |t| && t[c.end] == ')' then Some(Hit(s, c.end + 1, c.text)) else None
  }

  function MatchAt(pat: Pattern, t: string, s: nat): (r: Option<Hit>)
    ensures r.Some? ==>
      && r.value.start == s < r.value.end <= |t|
      && r.value.spec != [] && QuoteFree(r.value.spec)
  {
    match pat
    case ImportPattern => ImportAt(t, s)
    case RequirePattern => RequireAt(t, s)
  }

  /** One `exec` of a global regex whose `lastIndex` is `from`: the leftmost
      match starting at or after `from`. */
  function FindFrom(pat: Pattern, t: string, from: nat): (r: Option<Hit>)
    ensures r.Some? ==> from <= r.value.start && MatchAt(pat, t, r.value.start) == r
    decreases |t| + 1 - from
  {
    if from > |t| then None
    else if MatchAt(pat, t, from).Some? then MatchAt(pat, t, from)
    else FindFrom(pat, t, from + 1)
  }

  /** The match `exec` finds is the leftmost one: the pattern matches at no
      earlier position from `from` on, and at none at all when `exec` fails. */
  lemma {:induction false} FindFromLeftmost(pat: Pattern, t: string, from: nat, s: nat)
    requires from <= s <= |t|
    requires FindFrom(pat, t, from).Some? ==> s < FindFrom(pat, t, from).value.start
    ensures MatchAt(pat, t, s).None?
    decreases s - from
  {
    FindFromStep(pat, t, from);
    if s > from {
      FindFromLeftmost(pat, t, from + 1, s);
    }
  }

  /** `exec` from `from` either matches there or goes on from `from + 1`. */
  lemma FindFromStep(pat: Pattern, t: string, from: nat)
    requires from <= |t|
    ensures MatchAt(pat, t, from).Some? ==> FindFrom(pat, t, from) == MatchAt(pat, t, from)
    ensures MatchAt(pat, t, from).None? ==> FindFrom(pat, t, from) == FindFrom(pat, t, from + 1)
  {
  }

  /** The matches a `while ((m = re.exec(t)) !== null)` loop visits when
      `lastIndex` starts at `from`. */
  function Scan(pat: Pattern, t: string, from: nat): seq<Hit>
    decreases |t| + 1 - from
  {
    match FindFrom(pat, t, from)
    case None => []
    case Some(h) => [h] + Scan(pat, t, h.end)
  }

  /** The capture groups of a list of matches. */
  function Specs(hits: seq<Hit>): (r: seq<string>)
    ensures |r| == |hits| && forall i :: 0 <= i < |hits| ==> r[i] == hits[i].spec
  {
    seq(|hits|, i requires 0 <= i < |hits| => hits[i].spec)
  }

  /** The raw specifier list of one file: every import-pattern match, then
      every require-pattern match, each in text order. */
  function Specifiers(text: string): seq<string> {
    Specs(Scan(ImportPattern, text, 0)) + Specs(Scan(RequirePattern, text, 0))
  }

  lemma SpecifiersOfScans(text: string, a: seq<string>, b: seq<string>, imports: seq<string>)
    requires a == Specs(Scan(ImportPattern, text, 0)) && b == Specs(Scan(RequirePattern, text, 0))
    requires imports == [] + a + b
    ensures imports == Specifiers(text)
  {
    assert [] + a == a;
  }

  /** Every match a scan reports is a match of the pattern at its start, and
      the matches run left to right without overlapping. */
  lemma {:induction false} ScanSound(pat: Pattern, t: string, from: nat)
    ensures forall i :: 0 <= i < |Scan(pat, t, from)| ==>
      from <= Scan(pat, t, from)[i].start && MatchAt(pat, t, Scan(pat, t, from)[i].start) == Some(Scan(pat, t, from)[i])
    ensures forall i :: 0 <= i < |Scan(pat, t, from)| - 1 ==> Scan(pat, t, from)[i].end <= Scan(pat, t, from)[i + 1].start
    decreases |t| + 1 - from
  {
    var r := FindFrom(pat, t, from);
    if r.Some? {
      var h := r.value;
      ScanSound(pat, t, h.end);
      var rest := Scan(pat, t, h.end);
      assert Scan(pat, t, from) == [h] + rest;
      SoundCons(pat, t, from, h, rest);
    }
  }

  /** A first match put before matches that start after it ends. */
  lemma SoundCons(pat: Pattern, t: string, from: nat, h: Hit, rest: seq<Hit>)
    requires from <= h.start <= h.end && MatchAt(pat, t, h.start) == Some(h)
    requires forall i :: 0 <= i < |rest| ==>
      h.end <= rest[i].start && MatchAt(pat, t, rest[i].start) == Some(rest[i])
    requires forall i :: 0 <= i < |rest| - 1 ==> rest[i].end <= rest[i + 1].start
    ensures forall i :: 0 <= i < |[h] + rest| ==>
      from <= ([h] + rest)[i].start && MatchAt(pat, t, ([h] + rest)[i].start) == Some(([h] + rest)[i])
    ensures forall i :: 0 <= i < |[h] + rest| - 1 ==> ([h] + rest)[i].end <= ([h] + rest)[i + 1].start
  {
    var hits := [h] + rest;
    forall i | 0 <= i < |hits|
      ensures from <= hits[i].start && MatchAt(pat, t, hits[i].start) == Some(hits[i])
    {
      if i > 0 { assert hits[i] == rest[i - 1]; }
    }
    forall i | 0 <= i < |hits| - 1
      ensures hits[i].end <= hits[i + 1].start
    {
      if i > 0 { assert hits[i] == rest[i - 1] && hits[i + 1] == rest[i]; }
    }
  }

  /** Position `s` is the start of one of `hits` or lies inside one. */
  predicate Covered(hits: seq<Hit>, s: nat) {
    exists i :: 0 <= i < |hits| && hits[i].start <= s < hits[i].end
  }

  /** No match is skipped: every position at or after `from` at which the
      pattern matches is the start of a reported match or lies inside one. */
  lemma {:induction false} ScanComplete(pat: Pattern, t: string, from: nat, s: nat)
    requires from <= s <= |t| && MatchAt(pat, t, s).Some?
    ensures Covered(Scan(pat, t, from), s)
    decreases |t| + 1 - from
  {
    var r := FindFrom(pat, t, from);
    if r.None? {
      FindFromLeftmost(pat, t, from, s);
      assert false;
    } else {
      var h := r.value;
      var rest := Scan(pat, t, h.end);
      var hits := Scan(pat, t, from);
      assert hits == [h] + rest;
      if s < h.start {
        FindFromLeftmost(pat, t, from, s);
        assert false;
      } else if s < h.end {
        assert hits[0].start <= s < hits[0].end;
      } else {
        ScanComplete(pat, t, h.end, s);
        var i :| 0 <= i < |rest| && rest[i].start <= s < rest[i].end;
        assert hits[i + 1] == rest[i];
      }
    }
  }

  /** Every extracted specifier is non-empty and holds no quote character. */
  lemma SpecifiersWellFormed(text: string)
    ensures forall i :: 0 <= i < |Specifiers(text)| ==>
      Specifiers(text)[i] != [] && QuoteFree(Specifiers(text)[i])
  {
    var a := Scan(ImportPattern, text, 0);
    var b := Scan(RequirePattern, text, 0);
    ScanSound(ImportPattern, text, 0);
    ScanSound(RequirePattern, text, 0);
    var sp := Specifiers(text);
    forall i | 0 <= i < |sp| ensures sp[i] != [] && QuoteFree(sp[i]) {
      if i < |a| {
        assert sp[i] == a[i].spec;
        assert MatchAt(ImportPattern, text, a[i].start) == Some(a[i]);
      } else {
        assert sp[i] == b[i - |a|].spec;
        assert MatchAt(RequirePattern, text, b[i - |a|].start) == Some(b[i - |a|]);
      }
    }
  }

  /** `require(`, a quote, a non-empty quote-free specifier, a quote and `)`
      always match, whatever surrounds them. */
  lemma RequireMatches(pre: string, q1: char, spec: string, q2: char, post: string)
    requires IsQuote(q1) && IsQuote(q2) && spec != [] && QuoteFree(spec)
    ensures RequireAt(pre + "require(" + [q1] + spec + [q2] + ")" + post, |pre|)
         == Some(Hit(|pre|, |pre| + 11 + |spec|, spec))
  {
    var t := pre + "require(" + [q1] + spec + [q2] + ")" + post;
    var s := |pre|;
    assert t[s..s + 8] == "require(";
    assert t[s + 8] == q1;
    assert t[s + 9..s + 9 + |spec|] == spec;
    assert t[s + 9 + |spec|] == q2 && t[s + 10 + |spec|] == ')';
    RequireAtParts(t, s, |spec|);
  }

  /** `require(`, a quote, `n` non-quotes, a quote and `)` at `s` make a
      match whose capture is the `n` characters. */
  lemma RequireAtParts(t: string, s: nat, n: nat)
    requires LiteralAt(t, s, "require(") && s + 10 + n < |t|
    requires IsQuote(t[s + 8]) && n > 0 && QuoteFree(t[s + 9..s + 9 + n])
    requires IsQuote(t[s + 9 + n]) && t[s + 10 + n] == ')'
    ensures RequireAt(t, s) == Some(Hit(s, s + 11 + n, t[s + 9..s + 9 + n]))
  {
    assert forall k :: s + 9 <= k < s + 9 + n ==> t[k] == t[s + 9..s + 9 + n][k - s - 9];
    NonQuoteRunOver(t, s + 9, n);
  }

  lemma {:induction false} NonQuoteRunOver(t: string, i: nat, n: nat)
    requires i + n < |t|
    requires forall k :: i <= k < i + n ==> !IsQuote(t[k])
    requires IsQuote(t[i + n])
    ensures NonQuoteRun(t, i) == n
    decreases n
  {
    if n > 0 {
      NonQuoteRunOver(t, i + 1, n - 1);
    }
  }

  /** `require` is recognised only as `require(`, a quote, the specifier, a
      quote and `)`, with nothing in between. */
  lemma RequireScanShape(t: string)
    ensures forall i :: 0 <= i < |Scan(RequirePattern, t, 0)| ==>
      RequireShaped(t, Scan(RequirePattern, t, 0)[i])
  {
    ScanSound(RequirePattern, t, 0);
    var hits := Scan(RequirePattern, t, 0);
    forall i | 0 <= i < |hits| ensures RequireShaped(t, hits[i]) {
      assert MatchAt(RequirePattern, t, hits[i].start) == Some(hits[i]);
      RequireAtShaped(t, hits[i]);
    }
  }

  /** The text of `h` is `require(`, a quote, the specifier, a quote, `)`. */
  predicate RequireShaped(t: string, h: Hit) {
    && h.start + 11 + |h.spec| == h.end <= |t|
    && t[h.start..h.start + 8] == "require(" && IsQuote(t[h.start + 8])
    && t[h.start + 9..h.end - 2] == h.spec
    && IsQuote(t[h.end - 2]) && t[h.end - 1] == ')'
  }

  lemma RequireAtShaped(t: string, h: Hit)
    requires RequireAt(t, h.start) == Some(h)
    ensures RequireShaped(t, h)
  {
  }

  /** The `import` keyword of every import-pattern match is followed by at
      least one blank, so `import("x")` is not a match of that pattern. */
  lemma ImportScanShape(t: string)
    ensures forall h :: h in Scan(ImportPattern, t, 0) ==>
      h.start + 6 < |t| && t[h.start..h.start + 6] == "import" && IsSpace(t[h.start + 6])
  {
    ScanSound(ImportPattern, t, 0);
    var hits := Scan(ImportPattern, t, 0);
    forall h | h in hits
      ensures h.start + 6 < |t| && t[h.start..h.start + 6] == "import" && IsSpace(t[h.start + 6])
    {
      var i :| 0 <= i < |hits| && hits[i] == h;
      assert ImportAt(t, h.start) == Some(h);
    }
  }

  // ---- import nodes --------------------------------------------------------

  /** The extensions `parseImports` reads. */
  const ScannedExtensions: seq<string> := [".ts", ".tsx", ".js", ".jsx"]

  predicate IsScanned(path: string) {
    ExtName(path) in ScannedExtensions
  }

  /** One iteration of the loop over files, with `keep` the extension test
      and `scan` giving a text's raw specifier list: add the node of `f`, or fail with `f`'s path when its
      text cannot be read. */
  function AddFile(nodes: map<string, ImportNode>, f: FileEntry, contents: map<string, string>,
                   keep: string -> bool, scan: string -> seq<string>): Result<map<string, ImportNode>, string>
  {
    if !keep(f.path) then Success(nodes)
    else if f.path !in contents then Failure(f.path)
    else
      var imports := scan(contents[f.path]);
      if |imports| > 0 then Success(nodes[f.path := ImportNode(f.path, Dedupe(imports))])
      else Success(nodes)
  }

  /** The `fileImports` record after the loop has visited `files`. */
  function NodesOf(files: seq<FileEntry>, contents: map<string, string>, keep: string -> bool, scan: string -> seq<string>)
    : Result<map<string, ImportNode>, string>
  {
    if files == [] then Success(map[])
    else
      match NodesOf(files[..|files| - 1], contents, keep, scan)
      case Failure(e) => Failure(e)
      case Success(nodes) => AddFile(nodes, files[|files| - 1], contents, keep, scan)
  }

  /** What `parseImports(snapshot)` resolves to, or the path whose read made
      it reject. */
  function ImportGraphOf(snapshot: RepoSnapshot): Result<ImportGraph, string> {
    match NodesOf(snapshot.files, snapshot.contents, IsScanned, Specifiers)
    case Failure(e) => Failure(e)
    case Success(nodes) => Success(ImportGraph(nodes, map[]))
  }

  /** One more turn of the loop over files. */
  lemma NodesOfStep(files: seq<FileEntry>, contents: map<string, string>,
                    keep: string -> bool, scan: string -> seq<string>, i: nat, nodes: map<string, ImportNode>)
    requires i < |files| && NodesOf(files[..i], contents, keep, scan) == Success(nodes)
    ensures NodesOf(files[..i + 1], contents, keep, scan) == AddFile(nodes, files[i], contents, keep, scan)
  {
    assert files[..i + 1][..i] == files[..i];
  }

  /** The turn for a file whose text was read and scanned. */
  lemma AddFileRead(nodes: map<string, ImportNode>, f: FileEntry, contents: map<string, string>,
                    keep: string -> bool, scan: string -> seq<string>, imports: seq<string>)
    requires keep(f.path) && f.path in contents && imports == scan(contents[f.path])
    ensures AddFile(nodes, f, contents, keep, scan)
         == Success(if |imports| > 0 then nodes[f.path := ImportNode(f.path, Dedupe(imports))] else nodes)
  {
  }

  /** The turn for a file the extension test rejects. */
  lemma AddFileSkipped(nodes: map<string, ImportNode>, f: FileEntry, contents: map<string, string>,
                       keep: string -> bool, scan: string -> seq<string>)
    requires !keep(f.path)
    ensures AddFile(nodes, f, contents, keep, scan) == Success(nodes)
  {
  }

  /** The turn for a file whose text cannot be read. */
  lemma AddFileUnreadable(nodes: map<string, ImportNode>, f: FileEntry, contents: map<string, string>,
                          keep: string -> bool, scan: string -> seq<string>)
    requires keep(f.path) && f.path !in contents
    ensures AddFile(nodes, f, contents, keep, scan) == Failure(f.path)
  {
  }

  /** Once a read has failed, the rest of the files do not matter. */
  lemma {:induction false} NodesOfFailurePersists(files: seq<FileEntry>, contents: map<string, string>,
                                                  keep: string -> bool, scan: string -> seq<string>, j: nat)
    requires j <= |files| && NodesOf(files[..j], contents, keep, scan).Failure?
    ensures NodesOf(files, contents, keep, scan) == NodesOf(files[..j], contents, keep, scan)
    decreases |files| - j
  {
    if j < |files| {
      assert files[..j + 1][..j] == files[..j];
      NodesOfFailurePersists(files, contents, keep, scan, j + 1);
    } else {
      assert files[..j] == files;
    }
  }

  /** A file the loop would read whose text is not available. */
  predicate Unreadable(f: FileEntry, contents: map<string, string>, keep: string -> bool) {
    keep(f.path) && f.path !in contents
  }

  /** `parseImports` rejects exactly when some file it scans cannot be read,
      and then with the path of the first such file. */
  lemma {:induction false} NodesOfFailsIff(files: seq<FileEntry>, contents: map<string, string>,
                                           keep: string -> bool, scan: string -> seq<string>)
    ensures NodesOf(files, contents, keep, scan).Failure? <==>
      exists i :: 0 <= i < |files| && Unreadable(files[i], contents, keep)
    ensures NodesOf(files, contents, keep, scan).Failure? ==>
      exists i :: 0 <= i < |files| && Unreadable(files[i], contents, keep)
        && NodesOf(files, contents, keep, scan).error == files[i].path
        && forall j :: 0 <= j < i ==> !Unreadable(files[j], contents, keep)
  {
    if files != [] {
      var p := files[..|files| - 1];
      var f := files[|files| - 1];
      NodesOfFailsIff(p, contents, keep, scan);
      assert forall i :: 0 <= i < |p| ==> files[i] == p[i];
      var r := NodesOf(p, contents, keep, scan);
      if r.Failure? {
        assert NodesOf(files, contents, keep, scan) == r;
        var i :| 0 <= i < |p| && Unreadable(p[i], contents, keep) && r.error == p[i].path
          && forall j :: 0 <= j < i ==> !Unreadable(p[j], contents, keep);
        assert Unreadable(files[i], contents, keep);
      } else {
        assert forall i :: 0 <= i < |p| ==> !Unreadable(p[i], contents, keep);
        assert NodesOf(files, contents, keep, scan) == AddFile(r.value, f, contents, keep, scan);
        if Unreadable(f, contents, keep) {
          assert NodesOf(files, contents, keep, scan) == Failure(f.path);
          assert files[|p|] == f;
        } else {
          assert NodesOf(files, contents, keep, scan).Success?;
          forall i | 0 <= i < |files| ensures !Unreadable(files[i], contents, keep) {
            if i < |p| { assert files[i] == p[i]; }
          }
        }
      }
    }
  }

  /** A path gets a node exactly when a file with that path has a scanned
      extension and at least one specifier; the node's `path` is its key and
      its `imports` are the file's specifiers with later repeats removed. */
  lemma {:induction false} NodesOfExactly(files: seq<FileEntry>, contents: map<string, string>,
                                          keep: string -> bool, scan: string -> seq<string>, nodes: map<string, ImportNode>)
    requires NodesOf(files, contents, keep, scan) == Success(nodes)
    ensures forall i :: 0 <= i < |files| ==> !Unreadable(files[i], contents, keep)
    ensures forall path :: path in nodes <==> Listed(files, path) && Productive(path, contents, keep, scan)
    ensures forall path :: path in nodes ==>
      (path in contents && nodes[path] == ImportNode(path, Dedupe(scan(contents[path]))))
  {
    if files != [] {
      var p := files[..|files| - 1];
      var f := files[|files| - 1];
      assert forall i :: 0 <= i < |p| ==> files[i] == p[i];
      var r := NodesOf(p, contents, keep, scan);
      assert r.Success?;
      var prev := r.value;
      NodesOfExactly(p, contents, keep, scan, prev);
      assert AddFile(prev, f, contents, keep, scan) == Success(nodes);
      forall i | 0 <= i < |files| ensures !Unreadable(files[i], contents, keep) {
        if i < |p| { assert files[i] == p[i]; }
      }
      forall path ensures path in nodes <==> Listed(files, path) && Productive(path, contents, keep, scan) {
        ListedSnoc(p, f, path);
        if path == f.path {
        } else {
          assert path in nodes <==> path in prev;
        }
      }
    }
  }

  /** Some file of the list has this path. */
  predicate Listed(files: seq<FileEntry>, path: string) {
    exists i :: 0 <= i < |files| && files[i].path == path
  }

  /** A path the loop scans, whose text is available and yields a specifier. */
  predicate Productive(path: string, contents: map<string, string>, keep: string -> bool, scan: string -> seq<string>) {
    keep(path) && path in contents && |scan(contents[path])| > 0
  }

  lemma ListedSnoc(p: seq<FileEntry>, f: FileEntry, path: string)
    ensures Listed(p + [f], path) <==> Listed(p, path) || f.path == path
  {
    if Listed(p + [f], path) && f.path != path {
      var i :| 0 <= i < |p + [f]| && (p + [f])[i].path == path;
      assert p[i].path == path;
    }
    if Listed(p, path) {
      var i :| 0 <= i < |p| && p[i].path == path;
      assert (p + [f])[i].path == path;
    }
    if f.path == path {
      assert (p + [f])[|p|].path == path;
    }
  }

  /** `imports_py` is always empty; `imports_ts` holds a node exactly for
      each listed file with a scanned extension and at least one specifier,
      under its own path, with the deduplicated specifiers. */
  lemma ImportGraphShape(snapshot: RepoSnapshot, g: ImportGraph)
    requires ImportGraphOf(snapshot) == Success(g)
    ensures g.importsPy == map[]
    ensures forall path :: path in g.importsTs <==>
      Listed(snapshot.files, path) && Productive(path, snapshot.contents, IsScanned, Specifiers)
    ensures forall path :: path in g.importsTs ==>
      && g.importsTs[path].path == path
      && path in snapshot.contents
      && g.importsTs[path].imports == Dedupe(Specifiers(snapshot.contents[path]))
      && NoDuplicates(g.importsTs[path].imports)
  {
    NodesOfExactly(snapshot.files, snapshot.contents, IsScanned, Specifiers, g.importsTs);
  }

  // ---- the imperative form ---------------------------------------------------

  /** A regex object with the `g` flag: `exec` searches from `lastIndex`,
      moves it past the match, and resets it to 0 when nothing is found. */
  class GlobalRegex {
    const pattern: Pattern
    var lastIndex: nat

    constructor (pattern: Pattern)
      ensures this.pattern == pattern && lastIndex == 0
    {
      this.pattern := pattern;
      lastIndex := 0;
    }

    method Exec(text: string) returns (m: Option<Hit>)
      modifies this
      ensures m == FindFrom(pattern, text, old(lastIndex))
      ensures lastIndex == if m.Some? then m.value.end else 0
    {
      m := FindFrom(pattern, text, lastIndex);
      lastIndex := if m.Some? then m.value.end else 0;
    }

    /** `while ((match = re.exec(text)) !== null) imports.push(match[1])`:
        appends group 1 of every match, left to right. The loop stops only
        when `exec` fails, which leaves `lastIndex` at 0 for the next text. */
    method PushAll(text: string, imports: seq<string>) returns (r: seq<string>)
      requires lastIndex == 0
      modifies this
      ensures r == imports + Specs(Scan(pattern, text, 0))
      ensures lastIndex == 0
    {
      r := imports;
      var m := Exec(text);
      while m.Some?
        invariant m.Some? ==> m.value.end <= |text|
        invariant lastIndex == (if m.Some? then m.value.end else 0)
        invariant r + Specs(Remaining(pattern, text, m)) == imports + Specs(Scan(pattern, text, 0))
        decreases if m.Some? then |text| + 1 - m.value.end else 0
      {
        var h := m.value;
        RemainingStep(pattern, text, h);
        ShiftOne(r, h.spec, Specs(Remaining(pattern, text, FindFrom(pattern, text, h.end))));
        r := r + [h.spec];
        m := Exec(text);
      }
    }
  }

  /** After the match `h`, the captures still to come are its own and those
      found from its end. */
  lemma RemainingStep(pat: Pattern, t: string, h: Hit)
    requires h.end <= |t|
    ensures var next := FindFrom(pat, t, h.end);
      (next.Some? ==> next.value.end <= |t|)
      && Specs(Remaining(pat, t, Some(h))) == [h.spec] + Specs(Remaining(pat, t, next))
  {
    var next := FindFrom(pat, t, h.end);
    assert Remaining(pat, t, Some(h)) == [h] + Remaining(pat, t, next);
    SpecsCons(h, Remaining(pat, t, next));
  }

  lemma ShiftOne(r: seq<string>, x: string, rest: seq<string>)
    ensures r + ([x] + rest) == (r + [x]) + rest
  {
  }

  lemma SpecsCons(h: Hit, hits: seq<Hit>)
    ensures Specs([h] + hits) == [h.spec] + Specs(hits)
  {
  }

  /** The matches still to be visited once `exec` has returned `m`. */
  function Remaining(pat: Pattern, t: string, m: Option<Hit>): seq<Hit>
    requires m.Some? ==> m.value.end <= |t|
  {
    match m
    case None => []
    case Some(h) => [h] + Scan(pat, t, h.end)
  }

  /** One file's turn in `parseImports`: both global regexes run over the
      text, import-style matches first, then `require` calls. */
  method ReadSpecifiers(tsImportRegex: GlobalRegex, requireRegex: GlobalRegex, content: string)
    returns (imports: seq<string>)
    requires tsImportRegex != requireRegex
    requires tsImportRegex.pattern == ImportPattern && requireRegex.pattern == RequirePattern
    requires tsImportRegex.lastIndex == 0 && requireRegex.lastIndex == 0
    modifies tsImportRegex, requireRegex
    ensures imports == Specifiers(content)
    ensures tsImportRegex.lastIndex == 0 && requireRegex.lastIndex == 0
  {
    imports := tsImportRegex.PushAll(content, []);
    imports := requireRegex.PushAll(content, imports);
    SpecifiersOfScans(content, Specs(Scan(ImportPattern, content, 0)), Specs(Scan(RequirePattern, content, 0)), imports);
  }

  /** `parseImports`. Both regex objects are shared by all files; each `while`
      loop runs until `exec` fails, which puts `lastIndex` back to 0, so every
      file is scanned from its start and its list depends on its text alone. */
  method ParseImports(snapshot: RepoSnapshot) returns (r: Result<ImportGraph, string>)
    ensures r == ImportGraphOf(snapshot)
  {
    var fileImports: map<string, ImportNode> := map[];
    var tsImportRegex := new GlobalRegex(ImportPattern);
    var requireRegex := new GlobalRegex(RequirePattern);
    var files := snapshot.files;
    for i := 0 to |files|
      invariant tsImportRegex.pattern == ImportPattern && requireRegex.pattern == RequirePattern
      invariant tsImportRegex.lastIndex == 0 && requireRegex.lastIndex == 0
      invariant NodesOf(files[..i], snapshot.contents, IsScanned, Specifiers) == Success(fileImports)
    {
      var file := files[i];
      NodesOfStep(files, snapshot.contents, IsScanned, Specifiers, i, fileImports);
      if !IsScanned(file.path) {
        AddFileSkipped(fileImports, file, snapshot.contents, IsScanned, Specifiers);
        continue;
      }
      if file.path !in snapshot.contents {
        AddFileUnreadable(fileImports, file, snapshot.contents, IsScanned, Specifiers);
        NodesOfFailurePersists(files, snapshot.contents, IsScanned, Specifiers, i + 1);
        assert files[..|files|] == files;
        return Failure(file.path);
      }
      var imports := ReadSpecifiers(tsImportRegex, requireRegex, snapshot.contents[file.path]);
      AddFileRead(fileImports, file, snapshot.contents, IsScanned, Specifiers, imports);
      if |imports| > 0 {
        fileImports := fileImports[file.path := ImportNode(file.path, Dedupe(imports))];
      }
    }
    assert files[..|files|] == files;
    r := Success(ImportGraph(fileImports, map[]));
  }
}
