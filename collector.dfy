/** src/collector/index.ts: which files a snapshot holds. The ignore list
    is assembled from the configuration, the two ignore files and the
    defaults; the glob result is filtered by extension, sorted by relative
    path, and cut by file size and file count.

    The file system is left to parameters: the two ignore files arrive as
    `Option<string>` texts (`None` when the read throws), `fast-glob` is the
    function `glob`, `path.relative(root, ·)` the function `relative`,
    `localeCompare` the order `le`, and the snapshot's `readText` the map
    `texts`. */
module Collector {
  import opened Wrappers
  import opened Seqs
  import opened Strings
  import opened Paths
  import opened Sorting
  import opened Types

  /** An entry `fast-glob` returns with `stats: true, absolute: true`. */
  datatype GlobEntry = GlobEntry(path: string, size: nat)

  /** `fg(include, {ignore})`. */
  type Globber = (seq<string>, seq<string>) -> seq<GlobEntry>

  // ---- ignore files ----------------------------------------------------------

  /** A trimmed line that is kept as a pattern: not empty, not a comment. */
  predicate IsPattern(line: string) {
    line != [] && line[0] != '#'
  }

  /** `parseIgnoreFile`: split on line feeds, trim, drop blanks and comments. */
  function ParseIgnoreFile(content: string): seq<string> {
    Filter(Map(Lines(content), Trim), IsPattern)
  }

  /** The patterns one ignore file contributes; none when it cannot be read. */
  function IgnoreFilePatterns(content: Option<string>): seq<string> {
    if content.Some? then ParseIgnoreFile(content.value) else []
  }

  /** The patterns pushed before the defaults. */
  function ReadIgnores(exclude: seq<string>, gitignore: Option<string>, aibrainignore: Option<string>): seq<string> {
    exclude + IgnoreFilePatterns(gitignore) + IgnoreFilePatterns(aibrainignore)
  }

  /** The default ignore patterns, in the order they are merged. */
  const DefaultIgnores: seq<string> := ["node_modules/**", ".git/**", "dist/**", ".next/**", "coverage/**", ".venv/**"]

  /** `defaults.forEach(d => { if (!ignores.includes(d)) ignores.push(d) })`. */
  function MergeDefaults(ignores: seq<string>, defaults: seq<string>): seq<string> {
    if defaults == [] then ignores
    else SetAdd(MergeDefaults(ignores, defaults[..|defaults| - 1]), defaults[|defaults| - 1])
  }

  /** The `ignores` list handed to the glob, for a list of defaults. */
  function IgnoresOf(config: Config, gitignore: Option<string>, aibrainignore: Option<string>, defaults: seq<string>): seq<string> {
    MergeDefaults(ReadIgnores(config.excludeGlobs, gitignore, aibrainignore), defaults)
  }

  /** Step 1: config excludes, then each readable ignore file, then the
      defaults. */
  method LoadIgnores(config: Config, gitignore: Option<string>, aibrainignore: Option<string>, defaults: seq<string>)
    returns (ignores: seq<string>)
    ensures ignores == IgnoresOf(config, gitignore, aibrainignore, defaults)
  {
    ignores := [];
    ignores := ignores + config.excludeGlobs;
    assert ignores == config.excludeGlobs;
    if gitignore.Some? {
      ignores := ignores + ParseIgnoreFile(gitignore.value);
    }
    assert ignores == config.excludeGlobs + IgnoreFilePatterns(gitignore);
    if aibrainignore.Some? {
      ignores := ignores + ParseIgnoreFile(aibrainignore.value);
    }
    assert ignores == ReadIgnores(config.excludeGlobs, gitignore, aibrainignore);
    ignores := AddDefaults(ignores, defaults);
  }

  /** The `forEach` over the defaults: push each one not yet present. */
  method AddDefaults(base: seq<string>, defaults: seq<string>) returns (ignores: seq<string>)
    ensures ignores == MergeDefaults(base, defaults)
  {
    ignores := base;
    for i := 0 to |defaults|
      invariant ignores == MergeDefaults(base, defaults[..i])
    {
      assert defaults[..i + 1][..i] == defaults[..i];
      if !(defaults[i] in ignores) {
        ignores := ignores + [defaults[i]];
      }
    }
    assert defaults[..|defaults|] == defaults;
  }

  // ---- selection -------------------------------------------------------------

  /** The extension filter: `.ts`, `.tsx`, `.js`, `.jsx` and `.py` only. */
  predicate HasAllowedExt(e: GlobEntry) {
    ExtName(e.path) in {".ts", ".tsx", ".js", ".jsx", ".py"}
  }

  /** The comparator of the sort: `localeCompare` on relative paths. */
  function ByRelativePath(relative: string -> string, le: (string, string) -> bool): (GlobEntry, GlobEntry) -> bool {
    (a: GlobEntry, b: GlobEntry) => le(relative(a.path), relative(b.path))
  }

  /** `(config.max_file_kb || 512) * 1024`: absent and 0 both mean 512. */
  function MaxBytes(config: Config): int {
    var kb := if config.maxFileKb.Some? && config.maxFileKb.value != 0 then config.maxFileKb.value else 512;
    kb * 1024
  }

  /** `config.max_files || 20000`: absent and 0 both mean 20000. */
  function MaxFiles(config: Config): int {
    if config.maxFiles.Some? && config.maxFiles.value != 0 then config.maxFiles.value else 20000
  }

  /** How many files the loop may keep: the count is compared with the cap
      only after a push, so one file is allowed whatever the setting, and
      exactly the cap when it is positive. */
  function Limit(cap: int): (n: nat)
    ensures n >= 1 && n >= cap
    ensures cap >= 1 ==> n == cap
    ensures cap < 1 ==> n == 1
  {
    if cap < 1 then 1 else cap
  }

  /** The file record of an entry that passes the size limit. */
  function Passing(entries: seq<GlobEntry>, maxBytes: int, relative: string -> string): (r: seq<FileEntry>)
    ensures |r| <= |entries|
  {
    if entries == [] then []
    else
      var e := entries[|entries| - 1];
      Passing(entries[..|entries| - 1], maxBytes, relative)
        + (if e.size > maxBytes then [] else [FileEntry(relative(e.path), e.size)])
  }

  function Take<T>(s: seq<T>, n: nat): seq<T> {
    if |s| <= n then s else s[..n]
  }

  /** The files the selection loop keeps from the sorted entries. */
  function SelectedFiles(sorted: seq<GlobEntry>, maxBytes: int, cap: int, relative: string -> string): seq<FileEntry> {
    Take(Passing(sorted, maxBytes, relative), Limit(cap))
  }

  /** The entries after the extension filter and the sort. */
  function SortedEntries(entries: seq<GlobEntry>, relative: string -> string, le: (string, string) -> bool): seq<GlobEntry> {
    SortBy(Filter(entries, HasAllowedExt), ByRelativePath(relative, le))
  }

  /** What `collect` resolves to. */
  function SnapshotOf(root: string, config: Config, gitignore: Option<string>, aibrainignore: Option<string>,
                      glob: Globber, relative: string -> string, le: (string, string) -> bool,
                      texts: map<string, string>): RepoSnapshot {
    var entries := glob(config.includeGlobs, IgnoresOf(config, gitignore, aibrainignore, DefaultIgnores));
    RepoSnapshot(root, SelectedFiles(SortedEntries(entries, relative, le), MaxBytes(config), MaxFiles(config), relative), texts)
  }

  /** The `for` loop of step 2: oversized entries are skipped, and the loop
      stops right after the push that reaches the cap. */
  method SelectFiles(sorted: seq<GlobEntry>, maxBytes: int, cap: int, relative: string -> string)
    returns (files: seq<FileEntry>)
    ensures files == SelectedFiles(sorted, maxBytes, cap, relative)
  {
    files := [];
    ghost var stopped := false;
    for i := 0 to |sorted|
      invariant files == Passing(sorted[..i], maxBytes, relative)
      invariant |files| < Limit(cap)
    {
      var entry := sorted[i];
      PassingStep(sorted, maxBytes, relative, i);
      if entry.size > maxBytes {
        continue;
      }
      files := files + [FileEntry(relative(entry.path), entry.size)];
      if |files| >= cap {
        assert |files| == Limit(cap);
        PassingPrefix(sorted, maxBytes, relative, i + 1);
        stopped := true;
        break;
      }
    }
    if !stopped {
      assert sorted[..|sorted|] == sorted;
    }
  }

  /** `collect`, from the ignore list to the snapshot. */
  method Collect(root: string, config: Config, gitignore: Option<string>, aibrainignore: Option<string>,
                 glob: Globber, relative: string -> string, le: (string, string) -> bool,
                 texts: map<string, string>)
    returns (snapshot: RepoSnapshot)
    ensures snapshot == SnapshotOf(root, config, gitignore, aibrainignore, glob, relative, le, texts)
  {
    var ignores := LoadIgnores(config, gitignore, aibrainignore, DefaultIgnores);
    var entries := glob(config.includeGlobs, ignores);
    var processedEntries := Filter(entries, HasAllowedExt);
    processedEntries := SortBy(processedEntries, ByRelativePath(relative, le));
    var maxBytes := MaxBytes(config);
    var files := SelectFiles(processedEntries, maxBytes, MaxFiles(config), relative);
    snapshot := RepoSnapshot(root, files, texts);
  }

  /** One more entry visited by the selection loop. */
  lemma PassingStep(entries: seq<GlobEntry>, maxBytes: int, relative: string -> string, i: nat)
    requires i < |entries|
    ensures Passing(entries[..i + 1], maxBytes, relative)
      == Passing(entries[..i], maxBytes, relative)
        + (if entries[i].size > maxBytes then [] else [FileEntry(relative(entries[i].path), entries[i].size)])
  {
    assert entries[..i + 1][..i] == entries[..i];
  }

  // ---- properties ------------------------------------------------------------

  /** The files of a concatenation are those of each part: passing is
      decided entry by entry and keeps the order. */
  lemma {:induction false} PassingAppend(a: seq<GlobEntry>, b: seq<GlobEntry>, maxBytes: int, relative: string -> string)
    ensures Passing(a + b, maxBytes, relative) == Passing(a, maxBytes, relative) + Passing(b, maxBytes, relative)
    decreases |b|
  {
    if b == [] {
      assert a + b == a;
    } else {
      var b' := b[..|b| - 1];
      assert (a + b)[..|a + b| - 1] == a + b';
      PassingAppend(a, b', maxBytes, relative);
    }
  }

  /** What the loop has kept after a prefix is the start of what it would
      keep from the whole list. */
  lemma PassingPrefix(entries: seq<GlobEntry>, maxBytes: int, relative: string -> string, i: nat)
    requires i <= |entries|
    ensures Take(Passing(entries, maxBytes, relative), |Passing(entries[..i], maxBytes, relative)|)
      == Passing(entries[..i], maxBytes, relative)
  {
    assert entries == entries[..i] + entries[i..];
    PassingAppend(entries[..i], entries[i..], maxBytes, relative);
  }

  /** Every kept file is within the size limit, and came from an entry. */
  lemma {:induction false} PassingWithinSize(entries: seq<GlobEntry>, maxBytes: int, relative: string -> string, f: FileEntry)
    requires f in Passing(entries, maxBytes, relative)
    ensures f.size <= maxBytes
    ensures exists e :: e in entries && f == FileEntry(relative(e.path), e.size)
    decreases |entries|
  {
    var init, e := entries[..|entries| - 1], entries[|entries| - 1];
    if f in Passing(init, maxBytes, relative) {
      PassingWithinSize(init, maxBytes, relative, f);
      var e' :| e' in init && f == FileEntry(relative(e'.path), e'.size);
      assert e' in entries;
    } else {
      assert e in entries;
    }
  }

  /** An entry within the size limit is skipped only by the cap. */
  lemma {:induction false} PassingKeeps(entries: seq<GlobEntry>, maxBytes: int, relative: string -> string, e: GlobEntry)
    requires e in entries && e.size <= maxBytes
    ensures FileEntry(relative(e.path), e.size) in Passing(entries, maxBytes, relative)
    decreases |entries|
  {
    var init := entries[..|entries| - 1];
    if e != entries[|entries| - 1] {
      assert e in init by { assert entries == init + [entries[|entries| - 1]]; }
      PassingKeeps(init, maxBytes, relative, e);
    }
  }

  /** The selection: at most `Limit(cap)` files, each within the size
      limit, and they are the first such entries of the sorted list, in
      sorted order; when fewer pass, all of them are kept. */
  lemma SelectionBounds(sorted: seq<GlobEntry>, maxBytes: int, cap: int, relative: string -> string)
    ensures var files := SelectedFiles(sorted, maxBytes, cap, relative);
      var all := Passing(sorted, maxBytes, relative);
      |files| <= Limit(cap)
      && files == all[..|files|]
      && (|all| <= Limit(cap) ==> files == all)
      && (|all| > Limit(cap) ==> |files| == Limit(cap))
      && forall f :: f in files ==> f.size <= maxBytes
  {
    var files := SelectedFiles(sorted, maxBytes, cap, relative);
    var all := Passing(sorted, maxBytes, relative);
    forall f | f in files ensures f.size <= maxBytes {
      assert f in all;
      PassingWithinSize(sorted, maxBytes, relative, f);
    }
  }

  /** With a positive cap the file count stays within it. */
  lemma WithinCap(sorted: seq<GlobEntry>, maxBytes: int, cap: int, relative: string -> string)
    requires cap >= 1
    ensures |SelectedFiles(sorted, maxBytes, cap, relative)| <= cap
  {
  }

  /** The size limit in bytes and the file cap as the configuration sets
      them, with their defaults. */
  lemma ConfigDefaults(config: Config)
    ensures config.maxFileKb.None? || config.maxFileKb == Some(0) ==> MaxBytes(config) == 524288
    ensures config.maxFiles.None? || config.maxFiles == Some(0) ==> MaxFiles(config) == 20000
    ensures config.maxFileKb.Some? && config.maxFileKb.value != 0 ==> MaxBytes(config) == config.maxFileKb.value * 1024
    ensures config.maxFiles.Some? && config.maxFiles.value != 0 ==> MaxFiles(config) == config.maxFiles.value
  {
  }

  /** Only entries with an allowed extension reach the sort. */
  lemma SortedEntriesAllowed(entries: seq<GlobEntry>, relative: string -> string, le: (string, string) -> bool, e: GlobEntry)
    ensures e in SortedEntries(entries, relative, le) <==> e in entries && ExtName(e.path) in {".ts", ".tsx", ".js", ".jsx", ".py"}
  {
    var kept := Filter(entries, HasAllowedExt);
    assert multiset(SortedEntries(entries, relative, le)) == multiset(kept);
    assert e in SortedEntries(entries, relative, le) <==> e in kept by {
      assert e in SortedEntries(entries, relative, le) <==> e in multiset(SortedEntries(entries, relative, le));
      assert e in kept <==> e in multiset(kept);
    }
    if e in kept {
      FilterMembers(entries, HasAllowedExt, e);
    }
    if e in entries && HasAllowedExt(e) {
      FilterKeeps(entries, HasAllowedExt, e);
    }
  }

  /** The entries reach the size check sorted by relative path when
      `localeCompare` is a consistent order. */
  lemma SortedEntriesSorted(entries: seq<GlobEntry>, relative: string -> string, le: (string, string) -> bool)
    requires TotalPreorder(le)
    ensures Sorted(SortedEntries(entries, relative, le), ByRelativePath(relative, le))
  {
    var cmp := ByRelativePath(relative, le);
    assert TotalPreorder(cmp) by {
      forall a, b ensures cmp(a, b) || cmp(b, a) {
        assert le(relative(a.path), relative(b.path)) || le(relative(b.path), relative(a.path));
      }
      forall a, b, c | cmp(a, b) && cmp(b, c) ensures cmp(a, c) {
        assert le(relative(a.path), relative(b.path)) && le(relative(b.path), relative(c.path));
      }
    }
    SortBySorted(Filter(entries, HasAllowedExt), cmp);
  }

  /** The ignore list: config excludes, then the `.gitignore` patterns,
      then the `.aibrainignore` patterns, then the defaults not yet there,
      in default order. */
  lemma {:induction false} MergeDefaultsShape(ignores: seq<string>, defaults: seq<string>)
    ensures var r := MergeDefaults(ignores, defaults);
      |r| >= |ignores| && r[..|ignores|] == ignores
      && (forall d :: d in defaults ==> d in r)
      && (forall k :: |ignores| <= k < |r| ==> r[k] in defaults && r[k] !in ignores)
    decreases |defaults|
  {
    if defaults != [] {
      var init, d := defaults[..|defaults| - 1], defaults[|defaults| - 1];
      MergeDefaultsShape(ignores, init);
      assert forall x :: x in defaults <==> x in init || x == d;
    }
  }

  /** The defaults step adds no pattern twice, whatever the list before it
      holds; so a list without duplicates stays without them. */
  lemma {:induction false} MergeDefaultsNoDuplicates(ignores: seq<string>, defaults: seq<string>)
    ensures var r := MergeDefaults(ignores, defaults);
      |r| >= |ignores| && r[..|ignores|] == ignores && NoDuplicates(r[|ignores|..])
    ensures NoDuplicates(ignores) ==> NoDuplicates(MergeDefaults(ignores, defaults))
    decreases |defaults|
  {
    if defaults != [] {
      var init, d := defaults[..|defaults| - 1], defaults[|defaults| - 1];
      MergeDefaultsNoDuplicates(ignores, init);
      var r0 := MergeDefaults(ignores, init);
      if d !in r0 {
        assert (r0 + [d])[..|ignores|] == r0[..|ignores|];
        assert (r0 + [d])[|ignores|..] == r0[|ignores|..] + [d];
      }
    }
  }

  /** Step 1 as a whole: the config excludes, then the `.gitignore`
      patterns, then the `.aibrainignore` patterns (a file that cannot be
      read adds none), then the defaults not already listed. */
  lemma IgnoresShape(config: Config, gitignore: Option<string>, aibrainignore: Option<string>, defaults: seq<string>)
    ensures var base := config.excludeGlobs + IgnoreFilePatterns(gitignore) + IgnoreFilePatterns(aibrainignore);
      var r := IgnoresOf(config, gitignore, aibrainignore, defaults);
      |r| >= |base| && r[..|base|] == base
      && (forall d :: d in defaults ==> d in r)
      && (forall k :: |base| <= k < |r| ==> r[k] in defaults && r[k] !in base)
  {
    MergeDefaultsShape(ReadIgnores(config.excludeGlobs, gitignore, aibrainignore), defaults);
  }

  /** `parseIgnoreFile` keeps exactly the trimmed lines that are neither
      empty nor comments. */
  lemma ParseIgnoreFileMembers(content: string, x: string)
    ensures x in ParseIgnoreFile(content) <==> IsPattern(x) && exists line :: line in Lines(content) && Trim(line) == x
  {
    var trimmed := Map(Lines(content), Trim);
    MapMembers(Lines(content), Trim, x);
    if x in ParseIgnoreFile(content) {
      FilterMembers(trimmed, IsPattern, x);
    }
    if IsPattern(x) && x in trimmed {
      FilterKeeps(trimmed, IsPattern, x);
    }
  }

  /** Every pattern is already trimmed. */
  lemma ParsedPatternsTrimmed(content: string, x: string)
    requires x in ParseIgnoreFile(content)
    ensures Trim(x) == x && x != [] && x[0] != '#'
  {
    var trimmed := Map(Lines(content), Trim);
    FilterMembers(trimmed, IsPattern, x);
    MapMembers(Lines(content), Trim, x);
    var line :| line in Lines(content) && Trim(line) == x;
    TrimIdempotent(line);
  }

  /** Patterns keep the order of their lines: the patterns of two texts
      joined by a line feed are those of the first, then those of the second. */
  lemma ParseIgnoreFileAppend(a: string, b: string)
    ensures ParseIgnoreFile(a + "\n" + b) == ParseIgnoreFile(a) + ParseIgnoreFile(b)
  {
    LinesOfJoin(a, b);
    MapAppend(Lines(a), Lines(b), Trim);
    FilterAppend(Map(Lines(a), Trim), Map(Lines(b), Trim), IsPattern);
  }
}
