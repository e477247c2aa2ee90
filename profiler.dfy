/** src/profiler/index.ts: languages from file extensions, package managers
    and frameworks from exact basenames, each kept in a `Set` in the order
    of the first file that triggers it. */
module Profiler {
  import opened Wrappers
  import opened Seqs
  import opened Paths
  import opened Types

  /** What the loop looks at in one file: its extension and its basename. */
  type FileKey = (string, string)

  function KeyOf(f: FileEntry): FileKey {
    (ExtName(f.path), BaseName(f.path))
  }

  /** The language a file's extension adds, if any. */
  function LanguageOf(key: FileKey): Option<string> {
    var ext := key.0;
    if ext == ".ts" || ext == ".tsx" then Some("TypeScript")
    else if ext == ".js" || ext == ".jsx" then Some("JavaScript")
    else if ext == ".py" then Some("Python")
    else if ext == ".go" then Some("Go")
    else if ext == ".rs" then Some("Rust")
    else None
  }

  /** The package manager a file's basename adds, if any. */
  function PackageManagerOf(key: FileKey): Option<string> {
    var name := key.1;
    if name == "package-lock.json" then Some("npm")
    else if name == "pnpm-lock.yaml" then Some("pnpm")
    else if name == "yarn.lock" then Some("yarn")
    else if name == "poetry.lock" then Some("poetry")
    else if name == "requirements.txt" then Some("pip")
    else None
  }

  /** The framework a file's basename adds, if any. */
  function FrameworkOf(key: FileKey): Option<string> {
    var name := key.1;
    if name == "next.config.js" then Some("Next.js")
    else if name == "vite.config.ts" || name == "vite.config.js" then Some("Vite")
    else None
  }

  function OptionToSeq(o: Option<string>): seq<string> {
    if o.Some? then [o.value] else []
  }

  /** Every `add` call `classify` makes over `keys`, in file order, repeats
      included. */
  function Triggers(keys: seq<FileKey>, classify: FileKey -> Option<string>): seq<string> {
    if keys == [] then []
    else Triggers(keys[..|keys| - 1], classify) + OptionToSeq(classify(keys[|keys| - 1]))
  }

  /** `set.add(value)` when a value was triggered. */
  function Added(acc: seq<string>, o: Option<string>): seq<string> {
    if o.Some? then SetAdd(acc, o.value) else acc
  }

  /** What `profile` returns: each `Set`, filled by its `add` calls and
      turned into an array, keeps the first occurrence of every value. */
  function ProfileOf(files: seq<FileEntry>): Profile {
    var keys := Map(files, KeyOf);
    Profile(Dedupe(Triggers(keys, LanguageOf)),
            Dedupe(Triggers(keys, FrameworkOf)),
            Dedupe(Triggers(keys, PackageManagerOf)))
  }

  /** `profile`: one pass over the files, adding into three sets. */
  method ProfileSnapshot(snapshot: RepoSnapshot) returns (p: Profile)
    ensures p == ProfileOf(snapshot.files)
  {
    var languages: seq<string> := [];
    var frameworks: seq<string> := [];
    var packageManagers: seq<string> := [];
    var files := snapshot.files;
    for i := 0 to |files|
      invariant languages == Dedupe(Triggers(Map(files[..i], KeyOf), LanguageOf))
      invariant frameworks == Dedupe(Triggers(Map(files[..i], KeyOf), FrameworkOf))
      invariant packageManagers == Dedupe(Triggers(Map(files[..i], KeyOf), PackageManagerOf))
    {
      var ext := ExtName(files[i].path);
      var name := BaseName(files[i].path);
      ghost var keys := Map(files[..i], KeyOf);
      MapPrefixSnoc(files, KeyOf, i);
      TriggersSnoc(keys, (ext, name), LanguageOf, languages);
      TriggersSnoc(keys, (ext, name), FrameworkOf, frameworks);
      TriggersSnoc(keys, (ext, name), PackageManagerOf, packageManagers);
      languages := AddLanguage(languages, (ext, name));
      packageManagers := AddPackageManager(packageManagers, (ext, name));
      frameworks := AddFramework(frameworks, (ext, name));
    }
    assert files[..|files|] == files;
    p := Profile(languages, frameworks, packageManagers);
  }

  /** The extension tests of the loop body. */
  method AddLanguage(languages: seq<string>, key: FileKey) returns (r: seq<string>)
    ensures r == Added(languages, LanguageOf(key))
  {
    var ext := key.0;
    r := languages;
    if ext == ".ts" || ext == ".tsx" { r := SetAdd(r, "TypeScript"); }
    if ext == ".js" || ext == ".jsx" { r := SetAdd(r, "JavaScript"); }
    if ext == ".py" { r := SetAdd(r, "Python"); }
    if ext == ".go" { r := SetAdd(r, "Go"); }
    if ext == ".rs" { r := SetAdd(r, "Rust"); }
  }

  /** The lock-file tests of the loop body. */
  method AddPackageManager(packageManagers: seq<string>, key: FileKey) returns (r: seq<string>)
    ensures r == Added(packageManagers, PackageManagerOf(key))
  {
    var name := key.1;
    r := packageManagers;
    if name == "package-lock.json" { r := SetAdd(r, "npm"); }
    if name == "pnpm-lock.yaml" { r := SetAdd(r, "pnpm"); }
    if name == "yarn.lock" { r := SetAdd(r, "yarn"); }
    if name == "poetry.lock" { r := SetAdd(r, "poetry"); }
    if name == "requirements.txt" { r := SetAdd(r, "pip"); }
  }

  /** The framework tests of the loop body. */
  method AddFramework(frameworks: seq<string>, key: FileKey) returns (r: seq<string>)
    ensures r == Added(frameworks, FrameworkOf(key))
  {
    var name := key.1;
    r := frameworks;
    if name == "next.config.js" { r := SetAdd(r, "Next.js"); }
    if name == "vite.config.ts" || name == "vite.config.js" { r := SetAdd(r, "Vite"); }
  }

  /** One file's turn: the set gains the value the file triggers, if any. */
  lemma TriggersSnoc(keys: seq<FileKey>, key: FileKey, classify: FileKey -> Option<string>, acc: seq<string>)
    requires acc == Dedupe(Triggers(keys, classify))
    ensures Dedupe(Triggers(keys + [key], classify)) == Added(acc, classify(key))
  {
    var ts := Triggers(keys, classify);
    assert (keys + [key])[..|keys|] == keys;
    assert Triggers(keys + [key], classify) == ts + OptionToSeq(classify(key));
    if classify(key).Some? {
      DedupeSnoc(ts, classify(key).value);
    } else {
      assert ts + OptionToSeq(classify(key)) == ts;
    }
  }

  // ---- properties ------------------------------------------------------------

  /** A value is triggered exactly when some file classifies to it. */
  lemma {:induction false} TriggersMembers(keys: seq<FileKey>, classify: FileKey -> Option<string>, x: string)
    ensures x in Triggers(keys, classify) <==> exists k :: k in keys && classify(k) == Some(x)
    decreases |keys|
  {
    if keys != [] {
      var init := keys[..|keys| - 1];
      TriggersMembers(init, classify, x);
      assert forall k :: k in keys <==> k in init || k == keys[|keys| - 1];
    }
  }

  lemma DedupeMembers<T>(s: seq<T>, x: T)
    ensures x in Dedupe(s) <==> x in s
  {
    if x in s {
      var k :| 0 <= k < |s| && s[k] == x;
    }
  }

  /** Membership in a profile list: some file of the list triggers the value. */
  lemma ProfileMembers(files: seq<FileEntry>, classify: FileKey -> Option<string>, x: string)
    ensures x in Dedupe(Triggers(Map(files, KeyOf), classify))
      <==> exists f :: f in files && classify(KeyOf(f)) == Some(x)
  {
    var keys := Map(files, KeyOf);
    DedupeMembers(Triggers(keys, classify), x);
    TriggersMembers(keys, classify, x);
    if exists f :: f in files && classify(KeyOf(f)) == Some(x) {
      var f :| f in files && classify(KeyOf(f)) == Some(x);
      MapMembers(files, KeyOf, KeyOf(f));
    }
    if exists k :: k in keys && classify(k) == Some(x) {
      var k :| k in keys && classify(k) == Some(x);
      MapMembers(files, KeyOf, k);
    }
  }

  /** A value is listed exactly when some file passes the test that
      triggers it. */
  lemma ValueExactly(files: seq<FileEntry>, classify: FileKey -> Option<string>, x: string, test: FileKey -> bool)
    requires forall key :: classify(key) == Some(x) <==> test(key)
    ensures x in Dedupe(Triggers(Map(files, KeyOf), classify)) <==> exists f :: f in files && test(KeyOf(f))
  {
    ProfileMembers(files, classify, x);
  }

  // Languages come from the extension, package managers and frameworks
  // from the exact basename.

  lemma TypeScriptListed(files: seq<FileEntry>)
    ensures "TypeScript" in ProfileOf(files).languages <==> exists f :: f in files && ExtName(f.path) in {".ts", ".tsx"}
  {
    ValueExactly(files, LanguageOf, "TypeScript", (key: FileKey) => key.0 in {".ts", ".tsx"});
  }

  lemma JavaScriptListed(files: seq<FileEntry>)
    ensures "JavaScript" in ProfileOf(files).languages <==> exists f :: f in files && ExtName(f.path) in {".js", ".jsx"}
  {
    ValueExactly(files, LanguageOf, "JavaScript", (key: FileKey) => key.0 in {".js", ".jsx"});
  }

  lemma PythonListed(files: seq<FileEntry>)
    ensures "Python" in ProfileOf(files).languages <==> exists f :: f in files && ExtName(f.path) in {".py"}
  {
    ValueExactly(files, LanguageOf, "Python", (key: FileKey) => key.0 in {".py"});
  }

  lemma GoListed(files: seq<FileEntry>)
    ensures "Go" in ProfileOf(files).languages <==> exists f :: f in files && ExtName(f.path) in {".go"}
  {
    ValueExactly(files, LanguageOf, "Go", (key: FileKey) => key.0 in {".go"});
  }

  lemma RustListed(files: seq<FileEntry>)
    ensures "Rust" in ProfileOf(files).languages <==> exists f :: f in files && ExtName(f.path) in {".rs"}
  {
    ValueExactly(files, LanguageOf, "Rust", (key: FileKey) => key.0 in {".rs"});
  }

  lemma NpmListed(files: seq<FileEntry>)
    ensures "npm" in ProfileOf(files).packageManagers <==> exists f :: f in files && BaseName(f.path) in {"package-lock.json"}
  {
    ValueExactly(files, PackageManagerOf, "npm", (key: FileKey) => key.1 in {"package-lock.json"});
  }

  lemma PnpmListed(files: seq<FileEntry>)
    ensures "pnpm" in ProfileOf(files).packageManagers <==> exists f :: f in files && BaseName(f.path) in {"pnpm-lock.yaml"}
  {
    ValueExactly(files, PackageManagerOf, "pnpm", (key: FileKey) => key.1 in {"pnpm-lock.yaml"});
  }

  lemma YarnListed(files: seq<FileEntry>)
    ensures "yarn" in ProfileOf(files).packageManagers <==> exists f :: f in files && BaseName(f.path) in {"yarn.lock"}
  {
    ValueExactly(files, PackageManagerOf, "yarn", (key: FileKey) => key.1 in {"yarn.lock"});
  }

  lemma PoetryListed(files: seq<FileEntry>)
    ensures "poetry" in ProfileOf(files).packageManagers <==> exists f :: f in files && BaseName(f.path) in {"poetry.lock"}
  {
    ValueExactly(files, PackageManagerOf, "poetry", (key: FileKey) => key.1 in {"poetry.lock"});
  }

  lemma PipListed(files: seq<FileEntry>)
    ensures "pip" in ProfileOf(files).packageManagers <==> exists f :: f in files && BaseName(f.path) in {"requirements.txt"}
  {
    ValueExactly(files, PackageManagerOf, "pip", (key: FileKey) => key.1 in {"requirements.txt"});
  }

  lemma NextJsListed(files: seq<FileEntry>)
    ensures "Next.js" in ProfileOf(files).frameworks <==> exists f :: f in files && BaseName(f.path) in {"next.config.js"}
  {
    ValueExactly(files, FrameworkOf, "Next.js", (key: FileKey) => key.1 in {"next.config.js"});
  }

  lemma ViteListed(files: seq<FileEntry>)
    ensures "Vite" in ProfileOf(files).frameworks <==> exists f :: f in files && BaseName(f.path) in {"vite.config.ts", "vite.config.js"}
  {
    ValueExactly(files, FrameworkOf, "Vite", (key: FileKey) => key.1 in {"vite.config.ts", "vite.config.js"});
  }

  /** No list holds a value twice. */
  lemma ProfileNoDuplicates(files: seq<FileEntry>)
    ensures NoDuplicates(ProfileOf(files).languages)
    ensures NoDuplicates(ProfileOf(files).frameworks)
    ensures NoDuplicates(ProfileOf(files).packageManagers)
  {
  }

  /** The triggers of a concatenated key list are those of each part. */
  lemma {:induction false} TriggersAppend(a: seq<FileKey>, b: seq<FileKey>, classify: FileKey -> Option<string>)
    ensures Triggers(a + b, classify) == Triggers(a, classify) + Triggers(b, classify)
    decreases |b|
  {
    if b == [] {
      assert a + b == a;
    } else {
      var b' := b[..|b| - 1];
      assert (a + b)[..|a + b| - 1] == a + b';
      TriggersAppend(a, b', classify);
    }
  }

  /** Each list is in the order of first triggering: a value listed before
      another was first triggered by an earlier file. */
  lemma FirstTriggerOrder(files: seq<FileEntry>, classify: FileKey -> Option<string>, i: nat, j: nat)
    requires i < j < |Dedupe(Triggers(Map(files, KeyOf), classify))|
    ensures var ts := Triggers(Map(files, KeyOf), classify);
      FirstIndex(ts, Dedupe(ts)[i]) < FirstIndex(ts, Dedupe(ts)[j])
  {
    DedupeFirstOccurrenceOrder(Triggers(Map(files, KeyOf), classify), i, j);
  }

  /** No files, no languages, frameworks or package managers. */
  lemma EmptyProfile()
    ensures ProfileOf([]) == Profile([], [], [])
  {
  }

  /** Reordering the files can reorder each list but never changes what
      is in it. */
  lemma PermutationKeepsMembers(a: seq<FileEntry>, b: seq<FileEntry>, x: string)
    requires multiset(a) == multiset(b)
    ensures x in ProfileOf(a).languages <==> x in ProfileOf(b).languages
    ensures x in ProfileOf(a).frameworks <==> x in ProfileOf(b).frameworks
    ensures x in ProfileOf(a).packageManagers <==> x in ProfileOf(b).packageManagers
  {
    assert forall f :: f in a <==> f in multiset(a);
    assert forall f :: f in b <==> f in multiset(b);
    ProfileMembers(a, LanguageOf, x);
    ProfileMembers(b, LanguageOf, x);
    ProfileMembers(a, FrameworkOf, x);
    ProfileMembers(b, FrameworkOf, x);
    ProfileMembers(a, PackageManagerOf, x);
    ProfileMembers(b, PackageManagerOf, x);
  }
}
