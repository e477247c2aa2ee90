/** src/analyzer/workflows.ts: every `scripts` entry of every readable,
    parseable `package.json` becomes a command record.

    `JSON.parse(content)` followed by the `json.scripts` truthiness test and
    `Object.entries` is the parameter `parse`: `None` when the parse throws,
    `Some([])` when `scripts` is falsy or has no entries, otherwise the
    `[name, cmd]` pairs in `Object.entries` order. */
module Workflows {
  import opened Wrappers
  import opened Paths
  import opened Types

  /** The `[name, cmd]` pairs of `Object.entries(json.scripts)`. */
  type ScriptEntries = seq<(string, string)>

  /** `JSON.parse` plus `Object.entries(json.scripts)`, or `None` on a throw. */
  type ScriptsParser = string -> Option<ScriptEntries>

  /** A path whose basename is exactly `package.json`. */
  predicate IsManifest(path: string) {
    BaseName(path) == "package.json"
  }

  /** The record pushed for one script entry of a manifest in `cwd`. */
  function CommandOf(entry: (string, string), cwd: string): WorkflowCommand {
    WorkflowCommand(entry.0, entry.1, Some(cwd), PackageJsonSource, High)
  }

  /** The commands the inner loop pushes for `entries`, in entry order. */
  function EntryCommands(entries: ScriptEntries, cwd: string): (r: seq<WorkflowCommand>)
    ensures |r| == |entries|
  {
    if entries == [] then []
    else EntryCommands(entries[..|entries| - 1], cwd) + [CommandOf(entries[|entries| - 1], cwd)]
  }

  /** The commands one file contributes: none unless it is a manifest whose
      text can be read and parsed. */
  function FileCommands(path: string, contents: map<string, string>, keep: string -> bool, cwd: string -> string, parse: ScriptsParser): seq<WorkflowCommand> {
    if !keep(path) || path !in contents then []
    else
      match parse(contents[path])
      case None => []
      case Some(entries) => EntryCommands(entries, cwd(path))
  }

  /** The `commands` array after the outer loop has visited `files`. */
  function CommandsOf(files: seq<FileEntry>, contents: map<string, string>, keep: string -> bool, cwd: string -> string, parse: ScriptsParser): seq<WorkflowCommand> {
    if files == [] then []
    else
      CommandsOf(files[..|files| - 1], contents, keep, cwd, parse)
        + FileCommands(files[|files| - 1].path, contents, keep, cwd, parse)
  }

  /** What `extractWorkflows` returns. */
  function WorkflowsOf(snapshot: RepoSnapshot, parse: ScriptsParser): Workflows {
    Workflows(CommandsOf(snapshot.files, snapshot.contents, IsManifest, DirName, parse))
  }

  /** The inner loop: one command pushed per script entry, in entry order. */
  method PushEntries(commands: seq<WorkflowCommand>, entries: ScriptEntries, cwd: string) returns (r: seq<WorkflowCommand>)
    ensures r == commands + EntryCommands(entries, cwd)
  {
    r := commands;
    for j := 0 to |entries|
      invariant r == commands + EntryCommands(entries[..j], cwd)
    {
      assert entries[..j + 1][..j] == entries[..j];
      r := r + [CommandOf(entries[j], cwd)];
    }
    assert entries[..|entries|] == entries;
  }

  /** `extractWorkflows`: the outer loop visits the files, the `try` block
      reads and parses each manifest, and the inner loop pushes one command
      per script entry. A failed read or parse skips the file. */
  method ExtractWorkflows(snapshot: RepoSnapshot, parse: ScriptsParser) returns (w: Workflows)
    ensures w == WorkflowsOf(snapshot, parse)
  {
    var commands: seq<WorkflowCommand> := [];
    var files := snapshot.files;
    for i := 0 to |files|
      invariant commands == CommandsOf(files[..i], snapshot.contents, IsManifest, DirName, parse)
    {
      var file := files[i];
      CommandsOfStep(files, snapshot.contents, IsManifest, DirName, parse, i);
      if IsManifest(file.path) && file.path in snapshot.contents && parse(snapshot.contents[file.path]).Some? {
        FileCommandsParsed(file.path, snapshot.contents, IsManifest, DirName, parse);
        commands := PushEntries(commands, parse(snapshot.contents[file.path]).value, DirName(file.path));
      } else {
        FileCommandsSkipped(file.path, snapshot.contents, IsManifest, DirName, parse);
      }
    }
    assert files[..|files|] == files;
    w := Workflows(commands);
  }

  /** One turn of the outer loop appends the commands of one file. */
  lemma CommandsOfStep(files: seq<FileEntry>, contents: map<string, string>, keep: string -> bool, cwd: string -> string, parse: ScriptsParser, i: nat)
    requires i < |files|
    ensures CommandsOf(files[..i + 1], contents, keep, cwd, parse)
      == CommandsOf(files[..i], contents, keep, cwd, parse) + FileCommands(files[i].path, contents, keep, cwd, parse)
  {
    assert files[..i + 1][..i] == files[..i];
  }

  /** A manifest whose text was read and parsed gives one command per entry. */
  lemma FileCommandsParsed(path: string, contents: map<string, string>, keep: string -> bool, cwd: string -> string, parse: ScriptsParser)
    requires keep(path) && path in contents && parse(contents[path]).Some?
    ensures FileCommands(path, contents, keep, cwd, parse) == EntryCommands(parse(contents[path]).value, cwd(path))
  {
  }

  /** A file that is skipped, or whose read or parse throws, adds nothing. */
  lemma FileCommandsSkipped(path: string, contents: map<string, string>, keep: string -> bool, cwd: string -> string, parse: ScriptsParser)
    requires !(keep(path) && path in contents && parse(contents[path]).Some?)
    ensures FileCommands(path, contents, keep, cwd, parse) == []
  {
  }

  // ---- properties ------------------------------------------------------------

  /** Entry `k` of the scripts gives command `k`: name and command copied,
      `cwd` the manifest's directory, source `package.json`, confidence HIGH. */
  lemma {:induction false} EntryCommandsAt(entries: ScriptEntries, cwd: string, k: nat)
    requires k < |entries|
    ensures EntryCommands(entries, cwd)[k] == WorkflowCommand(entries[k].0, entries[k].1, Some(cwd), PackageJsonSource, High)
    decreases |entries|
  {
    if k < |entries| - 1 {
      EntryCommandsAt(entries[..|entries| - 1], cwd, k);
    }
  }

  /** The commands of a concatenated file list are those of each part, in
      order: commands are grouped by file, in file order. */
  lemma {:induction false} CommandsAppend(a: seq<FileEntry>, b: seq<FileEntry>, contents: map<string, string>, keep: string -> bool, cwd: string -> string, parse: ScriptsParser)
    ensures CommandsOf(a + b, contents, keep, cwd, parse) == CommandsOf(a, contents, keep, cwd, parse) + CommandsOf(b, contents, keep, cwd, parse)
    decreases |b|
  {
    if b == [] {
      assert a + b == a;
    } else {
      var b' := b[..|b| - 1];
      assert (a + b)[..|a + b| - 1] == a + b';
      CommandsAppend(a, b', contents, keep, cwd, parse);
    }
  }

  lemma CommandsOfOne(f: FileEntry, contents: map<string, string>, keep: string -> bool, cwd: string -> string, parse: ScriptsParser)
    ensures CommandsOf([f], contents, keep, cwd, parse) == FileCommands(f.path, contents, keep, cwd, parse)
  {
    assert [f][..0] == [];
  }

  /** A file that is not a manifest, cannot be read, or does not parse
      contributes nothing and does not stop the loop: the files around it
      give exactly the commands they give without it. */
  lemma FailedFileSkipped(a: seq<FileEntry>, f: FileEntry, b: seq<FileEntry>,
                          contents: map<string, string>, keep: string -> bool, cwd: string -> string, parse: ScriptsParser)
    requires !keep(f.path) || f.path !in contents || parse(contents[f.path]).None?
    ensures CommandsOf(a + [f] + b, contents, keep, cwd, parse) == CommandsOf(a + b, contents, keep, cwd, parse)
  {
    CommandsAppend(a + [f], b, contents, keep, cwd, parse);
    CommandsAppend(a, [f], contents, keep, cwd, parse);
    CommandsOfOne(f, contents, keep, cwd, parse);
    CommandsAppend(a, b, contents, keep, cwd, parse);
  }

  /** Only the text of manifests is read: two content maps that agree on
      the manifests in the list give the same commands. */
  lemma {:induction false} OnlyManifestsRead(files: seq<FileEntry>, c1: map<string, string>, c2: map<string, string>, keep: string -> bool, cwd: string -> string, parse: ScriptsParser)
    requires forall f :: f in files && keep(f.path) ==>
      (f.path in c1 <==> f.path in c2) && (f.path in c1 ==> c1[f.path] == c2[f.path])
    ensures CommandsOf(files, c1, keep, cwd, parse) == CommandsOf(files, c2, keep, cwd, parse)
    decreases |files|
  {
    if files != [] {
      var init := files[..|files| - 1];
      assert forall f :: f in init ==> f in files;
      OnlyManifestsRead(init, c1, c2, keep, cwd, parse);
      assert files[|files| - 1] in files;
    }
  }

  /** Every command comes from a script entry of some manifest in the list
      whose text parsed, and every such entry yields a command. */
  lemma {:induction false} CommandsExactly(files: seq<FileEntry>, contents: map<string, string>, keep: string -> bool, cwd: string -> string, parse: ScriptsParser, c: WorkflowCommand)
    ensures c in CommandsOf(files, contents, keep, cwd, parse) <==>
      exists f :: f in files && Parsed(f.path, contents, keep, parse) && c in EntryCommands(parse(contents[f.path]).value, cwd(f.path))
    decreases |files|
  {
    if files == [] {
    } else {
      var init := files[..|files| - 1];
      var last := files[|files| - 1];
      CommandsExactly(init, contents, keep, cwd, parse, c);
      assert forall f :: f in files <==> f in init || f == last;
    }
  }

  /** A manifest in the list that can be read and parsed. */
  predicate Parsed(path: string, contents: map<string, string>, keep: string -> bool, parse: ScriptsParser) {
    keep(path) && path in contents && parse(contents[path]).Some?
  }

  /** Every command is tagged as coming from `package.json` with HIGH
      confidence, and its `cwd` is set. */
  lemma CommandsTagged(files: seq<FileEntry>, contents: map<string, string>, keep: string -> bool, cwd: string -> string, parse: ScriptsParser, c: WorkflowCommand)
    requires c in CommandsOf(files, contents, keep, cwd, parse)
    ensures c.source == PackageJsonSource && c.confidence == High && c.cwd.Some?
  {
    CommandsExactly(files, contents, keep, cwd, parse, c);
    var f :| f in files && Parsed(f.path, contents, keep, parse) && c in EntryCommands(parse(contents[f.path]).value, cwd(f.path));
    var entries := parse(contents[f.path]).value;
    var k :| 0 <= k < |EntryCommands(entries, cwd(f.path))| && EntryCommands(entries, cwd(f.path))[k] == c;
    EntryCommandsAt(entries, cwd(f.path), k);
  }

  /** The count of commands is the total count of parsed script entries. */
  lemma {:induction false} CommandsCount(a: seq<FileEntry>, f: FileEntry, contents: map<string, string>, keep: string -> bool, cwd: string -> string, parse: ScriptsParser)
    requires Parsed(f.path, contents, keep, parse)
    ensures |CommandsOf(a + [f], contents, keep, cwd, parse)| == |CommandsOf(a, contents, keep, cwd, parse)| + |parse(contents[f.path]).value|
  {
    assert (a + [f])[..|a + [f]| - 1] == a;
  }
}
