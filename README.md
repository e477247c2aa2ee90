# aiBrain core, modelled in Dafny

aiBrain scans a repository and writes a "brain": a deterministic JSON
description of the code base. This project models the core of that scan:

- **Collector** (`collect`): assembles the ignore list, filters the glob
  result by extension, sorts by relative path, and applies the file-size
  and file-count limits.
- **Profiler** (`profile`): languages, package managers and frameworks
  detected from extensions and basenames.
- **Analyzer**:
  - `inferStructure`: projects from `package.json` files, with their type
    and boundaries.
  - `parseImports`: the two global regular expressions, run file by file
    with their shared `lastIndex`, and the deduplicated import nodes.
  - `extractWorkflows`: one command per `scripts` entry of every readable
    `package.json`.
  - `analyze`: the composition of the three.
- **Evidence** (`resolveEvidence`, `generateEvidenceId`): IDs hashed from
  a location key, excerpt hashes, and the last-writer-wins index.
- **Rules** (`synthesizeRules`, `checkRules`): the fixed policy, an empty
  rule list, and a checker that reports nothing.
- **Pipeline**: the `Pipeline` object, its `check` flow and exit code, and
  the coverage status of a brain.
- **Storage** (`stableStringify`): the key-sorting replacer and the
  2-space JSON writer. A member named `__proto__` is dropped by the
  replacer, as in JavaScript, where assigning it runs the setter that
  every object inherits instead of adding a member.

Each imperative routine is a `method` proved against a recursive
specification function. The loops are written as in the source: pushes,
`continue`/`break`, and `Set` insertion as "append if absent". The
properties are lemmas about those functions. The shared regex objects are a
class `GlobalRegex` whose `lastIndex` field the methods update.

The model follows the code where it differs from the design notes of the
repository:

- **Sort order of files.** The notes say files are sorted
  lexicographically. The code sorts with `localeCompare`, which depends on
  the locale. The model therefore takes the order as a parameter, and
  sortedness is proved for any total preorder.
- **Key order in `stableStringify`.** The notes say object keys are
  sorted. The replacer rebuilds each object by inserting its keys in
  `sort()` order. JavaScript objects list array-index keys ("0", "10")
  first, in numeric order, before the other keys. The model uses that order
  (`Storage.KeyLe`). The output is in plain sorted order when no key is an
  array index (`Storage.ObjectKeyOrder`). With array-index keys it can
  differ: keys "9" and "10" are written "9", "10", while `sort()` gives
  "10", "9" (`Storage.NumericKeysNotInSortOrder`).

## Model

| member | source | states |
|---|---|---|
| Imports.ImportAt | src/analyzer/imports.ts:10 | a match of the import pattern begins with `import` followed by at least one whitespace character, and its group is non-empty and quote-free |
| Imports.RequireAt | src/analyzer/imports.ts:12 | a match of the require pattern is `require(`, a quote, a non-empty quote-free group, a quote and `)` |
| Imports.FindFromLeftmost | src/analyzer/imports.ts:22-27 | `exec` finds the leftmost match at or after `lastIndex`: the pattern matches at no earlier position |
| Imports.ScanSound | src/analyzer/imports.ts:22-27 | every match the `while` loop visits is a match of the pattern at its start, and the matches are in text order without overlap |
| Imports.ScanComplete | src/analyzer/imports.ts:22-27 | no match is skipped: every position where the pattern matches starts, or lies inside, a visited match |
| Imports.SpecifiersWellFormed | src/analyzer/imports.ts:10-12 | every extracted specifier is non-empty and contains neither `'` nor `"` |
| Imports.RequireMatches | src/analyzer/imports.ts:12 | `require(`, a quote, a non-empty quote-free specifier, a quote and `)` is recognised at its position |
| Imports.RequireScanShape | src/analyzer/imports.ts:12 | the text of every require match is exactly `require(`, quote, specifier, quote, `)` |
| Imports.ImportScanShape | src/analyzer/imports.ts:10 | every import match starts with `import` and a whitespace character, so `import("x")` is not one |
| Imports.GlobalRegex.Exec | src/analyzer/imports.ts:22 | one `exec`: the leftmost match from `lastIndex`; `lastIndex` moves to its end, or back to 0 when nothing matches |
| Imports.GlobalRegex.PushAll | src/analyzer/imports.ts:22-27 | the `while` loop pushes every group-1 capture in text order and leaves `lastIndex` at 0 |
| Imports.ReadSpecifiers | src/analyzer/imports.ts:19-27 | a file's raw list is all import matches, then all require matches; it depends only on the file text, because both regexes end at `lastIndex` 0 |
| Imports.ParseImports | src/analyzer/imports.ts:5-41 | the loop over files builds exactly the graph `ImportGraphOf` describes, or rejects with the path of the file whose read failed |
| Imports.NodesOfFailsIff | src/analyzer/imports.ts:14-18 | the scan rejects exactly when some file with a scanned extension cannot be read, and then with the first such path |
| Imports.NodesOfFailurePersists | src/analyzer/imports.ts:18 | once a read has failed, the remaining files do not change the outcome |
| Imports.NodesOfExactly | src/analyzer/imports.ts:29-34 | a path has a node iff a listed file with that path is scanned and yields a specifier; the node's path is its key and its imports are the deduplicated specifiers |
| Imports.ImportGraphShape | src/analyzer/imports.ts:16-39 | `imports_py` is empty; a node exists iff a `.ts`/`.tsx`/`.js`/`.jsx` file yields a specifier; node imports have no duplicates |
| Seqs.DedupeFirstOccurrenceOrder | src/analyzer/imports.ts:32 | `Array.from(new Set(xs))` keeps the first occurrences, in the order they first occur |
| Structure.Classify | src/analyzer/structure.ts:19-21 | app iff the directory contains `apps/` or `services/`; library iff not an app and it contains `packages/` or `libs/`; never package or service |
| Structure.BoundariesExactly | src/analyzer/structure.ts:29 | the boundaries are exactly the project paths other than `.`, so there are at most as many as projects |
| Structure.InferStructure | src/analyzer/structure.ts:5-40 | the loop builds the structure `StructureOf` describes; `domains` is empty |
| Structure.PushProjects | src/analyzer/structure.ts:13-31 | after the loop the projects are the images of the files in order and the boundaries are those of `Boundaries`, the project paths other than `.` |
| Structure.ProjectsExactly | src/analyzer/structure.ts:11-27 | one project per file whose basename is `package.json`, and each project comes from such a file |
| Structure.ProjectsAppend | src/analyzer/structure.ts:11-13 | projects are in file-list order |
| Structure.BoundariesAppend | src/analyzer/structure.ts:29 | boundaries keep project order |
| Structure.ProjectOfPackagePath | src/analyzer/structure.ts:14-26 | `d/package.json` gives the project with path `d`, the type of `d`, and name `basename(d)` |
| Structure.RootPackage | src/analyzer/structure.ts:14-29 | a root `package.json` gives project `.` of unknown type, named `.`, and no boundary |
| Workflows.EntryCommandsAt | src/analyzer/workflows.ts:14-21 | script entry k gives command k: name and command copied, cwd the manifest's directory, source `package.json`, confidence HIGH |
| Workflows.PushEntries | src/analyzer/workflows.ts:14-22 | the inner loop appends one command per script entry, in entry order |
| Workflows.ExtractWorkflows | src/analyzer/workflows.ts:5-31 | the outer loop builds exactly the commands `WorkflowsOf` describes |
| Workflows.FileCommandsSkipped | src/analyzer/workflows.ts:9-26 | a file that is not a manifest, or whose read or parse throws, adds no commands |
| Workflows.FailedFileSkipped | src/analyzer/workflows.ts:24-26 | a failing file does not stop the loop: the commands are those of the list without it |
| Workflows.OnlyManifestsRead | src/analyzer/workflows.ts:9 | only files whose basename is exactly `package.json` are read |
| Workflows.CommandsExactly | src/analyzer/workflows.ts:8-22 | a command is produced iff it comes from a script entry of a listed manifest that was read and parsed |
| Workflows.CommandsAppend | src/analyzer/workflows.ts:8 | commands are in file order, then in entry order within a file |
| Workflows.CommandsTagged | src/analyzer/workflows.ts:18-20 | every command has a cwd, source `package.json` and confidence HIGH |
| Workflows.CommandsCount | src/analyzer/workflows.ts:14-15 | a parsed manifest adds exactly as many commands as it has script entries |
| Analyzer.Analyze | src/analyzer/index.ts:7-17 | `analyze` returns the record of the three analyzers, or the import scan's rejection |
| Analyzer.AnalysisFields | src/analyzer/index.ts:8-15 | structure, graphs and workflows are the results of `inferStructure`, `parseImports` and `extractWorkflows`; the profile argument plays no part |
| Analyzer.AnalysisShape | src/analyzer/index.ts:12-16 | an analysis has one project per `package.json`, no domains and no Python imports |
| Profiler.ProfileSnapshot | src/profiler/index.ts:5-40 | the loop fills the three sets as `ProfileOf` describes |
| Profiler.AddLanguage | src/profiler/index.ts:15-19 | the extension tests add the language the file's extension triggers, if it is not yet present |
| Profiler.AddPackageManager | src/profiler/index.ts:22-26 | the basename tests add the package manager the file's lock file triggers |
| Profiler.AddFramework | src/profiler/index.ts:29-30 | the basename tests add the framework the file's config file triggers |
| Profiler.TypeScriptListed | src/profiler/index.ts:15 | TypeScript is listed iff some file has extension `.ts` or `.tsx` |
| Profiler.JavaScriptListed | src/profiler/index.ts:16 | JavaScript is listed iff some file has extension `.js` or `.jsx` |
| Profiler.PythonListed | src/profiler/index.ts:17 | Python is listed iff some file has extension `.py` |
| Profiler.GoListed | src/profiler/index.ts:18 | Go is listed iff some file has extension `.go` |
| Profiler.RustListed | src/profiler/index.ts:19 | Rust is listed iff some file has extension `.rs` |
| Profiler.NpmListed | src/profiler/index.ts:22 | npm is listed iff some basename is `package-lock.json` |
| Profiler.PnpmListed | src/profiler/index.ts:23 | pnpm is listed iff some basename is `pnpm-lock.yaml` |
| Profiler.YarnListed | src/profiler/index.ts:24 | yarn is listed iff some basename is `yarn.lock` |
| Profiler.PoetryListed | src/profiler/index.ts:25 | poetry is listed iff some basename is `poetry.lock` |
| Profiler.PipListed | src/profiler/index.ts:26 | pip is listed iff some basename is `requirements.txt` |
| Profiler.NextJsListed | src/profiler/index.ts:29 | Next.js is listed iff some basename is `next.config.js` |
| Profiler.ViteListed | src/profiler/index.ts:30 | Vite is listed iff some basename is `vite.config.ts` or `vite.config.js` |
| Profiler.ProfileNoDuplicates | src/profiler/index.ts:6-8 | none of the three lists holds a value twice |
| Profiler.FirstTriggerOrder | src/profiler/index.ts:35-39 | each list is ordered by the first file that triggers each value |
| Profiler.EmptyProfile | src/profiler/index.ts:10-39 | no files give three empty lists |
| Profiler.PermutationKeepsMembers | src/profiler/index.ts:10-39 | reordering the files never changes which values are listed |
| Evidence.GenerateEvidenceId | src/evidence/index.ts:35-40 | the ID is `ev:` followed by the first 12 characters of the digest of the location key (15 characters in all for a full digest) |
| Evidence.EvidenceKeyInjective | src/evidence/index.ts:37 | the key determines path, kind and both lines (absent read as 0): different locations never share a key |
| Evidence.IdIgnoresContent | src/evidence/index.ts:37 | snippet and content hash never affect the ID |
| Evidence.AbsentLineIsZero | src/evidence/index.ts:37 | an absent start or end line gives the same ID as line 0 |
| Evidence.ExcerptHashCases | src/evidence/index.ts:12-19 | the excerpt hash is the content hash when truthy, else the digest of a non-empty snippet, else the content hash as given |
| Evidence.RecordCopiesLocation | src/evidence/index.ts:21-27 | path, kind and both lines are copied unchanged into the record |
| Evidence.ResolveEvidence | src/evidence/index.ts:5-33 | the loop builds the index `IndexOf` describes |
| Evidence.IndexKeys | src/evidence/index.ts:8-9 | the index keys are exactly the IDs of the items |
| Evidence.LastWriterWins | src/evidence/index.ts:29 | an item whose ID no later item shares is stored under its ID; a later item with the same ID overwrites it |
| Evidence.IndexSize | src/evidence/index.ts:8-30 | the index never has more entries than there are items |
| Rules.SynthesizeRules | src/rules/index.ts:4-26 | for every analysis the rule list is empty, `fail_on_warnings` is false, and the policy covers the four confidence levels |
| Rules.PolicySeverities | src/rules/index.ts:17-22 | HIGH maps to HARD, MED to SOFT, and LOW and CONFLICT to UNKNOWN |
| Rules.OnlyHighIsHard | src/rules/index.ts:17-22 | only HIGH confidence gives a hard severity |
| Rules.SynthesisIgnoresAnalysis | src/rules/index.ts:9-12 | the project count has no effect: every analysis gets the same rules |
| Rules.CheckRules | src/rules/index.ts:28-37 | no violations, and neither flag is set, for any input |
| Pipeline.ExitCode | src/pipeline/index.ts:125 | 2 iff a hard violation; 1 iff no hard violation but warnings; 0 iff neither |
| Pipeline.ExitCodeRange | src/pipeline/index.ts:125 | the code is 0, 1 or 2, and a hard violation gives 2 whatever the warnings |
| Pipeline.BrainStatus | src/pipeline/index.ts:88-91 | `files_scanned` is the snapshot's file count, `files_ignored` is 0, and there are no conflicts |
| Pipeline.CoverageWithinCap | src/pipeline/index.ts:89 | the reported file count never exceeds the collector's file cap |
| Pipeline.Pipeline.constructor | src/pipeline/index.ts:16-19 | the pipeline keeps the root and config it is given |
| Pipeline.Pipeline.Check | src/pipeline/index.ts:103-126 | `check` collects, profiles, analyzes, synthesizes, checks and returns the exit code `CheckOutcome` describes |
| Pipeline.CheckAlwaysPasses | src/pipeline/index.ts:120-125 | with the current synthesizer and checker, `check` always yields 0, and fails only when the import scan fails |
| Collector.ParseIgnoreFileMembers | src/collector/index.ts:108-113 | a pattern is kept iff it is a trimmed line that is neither empty nor starts with `#` |
| Collector.ParsedPatternsTrimmed | src/collector/index.ts:111-112 | every pattern is already trimmed, non-empty, and does not start with `#` |
| Collector.ParseIgnoreFileAppend | src/collector/index.ts:109-112 | patterns keep their line order: two texts joined by a line feed give the patterns of the first, then those of the second |
| Collector.LoadIgnores | src/collector/index.ts:17-42 | the ignore list is the config excludes, the readable ignore files' patterns, then the missing defaults |
| Collector.AddDefaults | src/collector/index.ts:39-42 | the `forEach` pushes each default that is not yet present |
| Collector.MergeDefaultsShape | src/collector/index.ts:39-42 | the existing list is kept as a prefix, every default is present afterwards, and every added pattern is a default that was not there |
| Collector.MergeDefaultsNoDuplicates | src/collector/index.ts:40-41 | for any list before it, the default step keeps that list as a prefix and adds no pattern twice; a list without duplicates stays without them |
| Collector.IgnoresShape | src/collector/index.ts:20-42 | order of the ignore list: config excludes, then `.gitignore`, then `.aibrainignore`, then the missing defaults |
| Collector.SortedEntriesAllowed | src/collector/index.ts:56-61 | an entry survives the filter iff its extension is `.ts`, `.tsx`, `.js`, `.jsx` or `.py` |
| Collector.SortedEntriesSorted | src/collector/index.ts:65-69 | the entries are sorted by relative path under the comparison order |
| Collector.ConfigDefaults | src/collector/index.ts:73 | the size limit is `max_file_kb * 1024`, or 512 KiB when unset or 0; the cap is `max_files`, or 20000 when unset or 0 |
| Collector.Limit | src/collector/index.ts:90-92 | the count is compared after the push, so a cap below one still allows one file, and a positive cap allows exactly that many |
| Collector.SelectFiles | src/collector/index.ts:75-93 | the loop skips oversized entries and stops right after the push that reaches the cap |
| Collector.PassingWithinSize | src/collector/index.ts:79-88 | every kept file is within the size limit and comes from an entry, under its relative path |
| Collector.PassingKeeps | src/collector/index.ts:79-88 | an entry within the size limit is skipped only by the cap |
| Collector.PassingAppend | src/collector/index.ts:77-88 | passing is decided entry by entry, in order |
| Collector.SelectionBounds | src/collector/index.ts:77-93 | the output is the first passing entries of the sorted list, in sorted order, at most the limit, all of them when fewer pass, and each within the size limit |
| Collector.WithinCap | src/collector/index.ts:90 | with a positive cap, at most `max_files` files are kept |
| Collector.Collect | src/collector/index.ts:12-106 | `collect` returns the snapshot `SnapshotOf` describes |
| Storage.SortKeysSorted | src/storage/index.ts:8-13 | after the replacer, every object at every depth lists its members in the output key order |
| Storage.ObjectKeyOrder | src/storage/index.ts:10-13 | array-index keys come first in numeric order, then the other keys in ascending code-unit order |
| Storage.MembersKept | src/storage/index.ts:10-13 | the rebuilt object has exactly the original members except a `__proto__` member (whose assignment runs the inherited setter instead of adding a member), `null` ones included, each value processed; without a `__proto__` key no member is lost |
| Storage.ArraysKeepOrder | src/storage/index.ts:9 | arrays keep their length and order; only objects are reordered |
| Storage.ScalarsPass | src/storage/index.ts:9 | `null`, booleans, numbers and strings pass through the replacer unchanged |
| Storage.NumericKeysNotInSortOrder | src/storage/index.ts:10-13 | keys "9" and "10" are array indices, so the rebuilt object lists "9" first, although `sort()` puts "10" first |
| Storage.SortKeysIdempotent | src/storage/index.ts:8-14 | running the replacer on its own output changes nothing |
| Storage.InsertionOrderIrrelevant | src/storage/index.ts:7-17 | two objects with the same members in a different insertion order serialize to the same text |
| Storage.FlatObjectLayout | src/storage/index.ts:16 | an object of scalar members prints as `{`, then one line per member indented two spaces deeper than the object, holding the quoted key, `": "`, the value and a comma on every line but the last, then `}` at the object's own indentation |
| Storage.Escape | src/storage/index.ts:16 | an escaped string contains no raw line feed, so a string value never breaks a member's line |
| Storage.EscapeRoundTrip | src/storage/index.ts:16 | reading the escapes back as `JSON.parse` does gives the original string, so escaping loses nothing |
| Strings.LinesOfJoin | src/collector/index.ts:110 | `split('\n')` of two texts joined by a line feed is the split of each, in order |
| Strings.JoinLinesOfLines | src/collector/index.ts:110 | joining the pieces of `split('\n')` with line feeds gives the text back |
| Strings.TrimIdempotent | src/collector/index.ts:111 | trimming a trimmed line changes nothing |
| Strings.ContainsIffOccurs | src/analyzer/structure.ts:20-21 | `includes` holds iff the substring occurs at some position |
| Strings.IntToStringRoundTrip | src/evidence/index.ts:37 | a line number printed in the key can be read back |
| Paths.ExtNameOfStem | src/analyzer/imports.ts:15 | `extname` is the final `.xyz` of the basename |
| Paths.ExtNameOfDotFile | src/profiler/index.ts:11 | a basename whose only dot is its first character has no extension |
| Paths.DirAndBaseOfJoin | src/analyzer/structure.ts:14 | `dirname` and `basename` of `d/n` are `d` and `n` |
| Paths.DirAndBaseOfName | src/analyzer/structure.ts:14 | a bare name has `dirname` `.` and is its own `basename` |
| Sorting.SortBySorted | src/collector/index.ts:65-69 | the stable sort's result is sorted whenever the comparison is a total preorder |
| Sorting.SortedUnique | src/storage/index.ts:10 | two sorted arrangements of the same elements coincide when no two distinct elements compare equal |

## Left out

- File system and globbing are parameters.
  - `fast-glob` with its ignore-pattern matching is a function from the include and ignore lists to entries.
  - The two ignore files are optional texts; a failed read gives `None`.
  - `snapshot.readText` is a map from path to text; a missing path is a failed read.
  - The `fs` writes and `mkdir` in `saveBrain`, `saveBaseline` and `loadBaseline` are not modelled.
- Some library functions are parameters:
  - `crypto.createHash('sha256')` is any function from strings to strings.
  - `path.relative(root, ·)` is a function from absolute to relative paths.
  - `String.prototype.localeCompare` is an abstract comparison order.
  - `JSON.parse(content).scripts` with `Object.entries` is a partial function giving the `[name, cmd]` pairs, or `None` when parsing throws or `scripts` is falsy.
- Workflows.ExtractWorkflows: the `cmd as string` cast is taken at its word. Script values are strings in the model, so a non-string `scripts` value is not modelled.
- `Pipeline.run` is not modelled: it only sequences I/O. As written, it destructures `{conventions, evidence}` from `mine`, which returns a plain `Conventions`.
- The miner, the renderer and the command-line front end are not modelled. `src/miner/index.ts` always returns an empty list. The renderer is a Markdown template with file writes. The CLI is argument wiring around `Pipeline`.
- Collector.Collect: the in-place `processedEntries.sort` is modelled on values by a stable insertion sort. Configuration numbers are integers, so `NaN` and fractional `max_file_kb`/`max_files` are not modelled.
- Evidence.GenerateEvidenceId: evidence line numbers (`startLine`, `endLine`) are integers or absent. `NaN`, which `|| 0` also maps to 0, and fractional lines, which `String(x)` prints with a decimal point, are not modelled.
- Collector.SortedEntriesSorted: it assumes `localeCompare` behaves as a total preorder. The order is locale-dependent and not otherwise known.
- Strings are sequences of Unicode scalar values, while JavaScript strings are sequences of UTF-16 code units. A character outside the Basic Multilingual Plane is one character here and is compared by its code point, so the code-unit order that `Storage.KeyLe` and `Storage.ObjectKeyOrder` describe holds for keys made of Basic Multilingual Plane characters only (JavaScript sorts U+1F600 before U+FF01, the model after it). Lone surrogates cannot be represented. `\s` and `trim` use JavaScript's whitespace set; no Unicode normalisation is modelled.
- Storage.Escape: `"`, `\`, line feed, carriage return, tab, backspace (`\b`) and form feed (`\f`) are escaped as `JSON.stringify` does. Its `\u00XX` form for the other control characters below U+0020 and its `\uXXXX` form for lone surrogates are not modelled: the other control characters are written unescaped, and lone surrogates cannot occur in the model's strings.
- Storage.FlatObjectLayout: it covers objects whose members are all scalars. The layout of nested arrays and objects follows the same recursion in `Storage.Render` but is not stated as a lemma.
- Storage.Render: numbers are integers and print in decimal. Floating-point formatting is not modelled, nor are `undefined` members, which `JSON.stringify` drops.
- Storage.ObjectKeyOrder: it states the order as non-strict. Keys of a JavaScript object are distinct, but distinctness of the rebuilt object's keys is not carried through.
- Storage.InsertionOrderIrrelevant: it covers reordering the members of one object. Reordering inside nested objects follows from `Storage.SortKeysIdempotent` and `Storage.MembersKept`, but is not stated as one lemma.
- Python import extraction, resolution of relative specifiers, dynamic-`import()` tagging, cross-project boundary rules and evidence-collision refusal are absent from the code. The model does not add them.
- Everything is awaited in sequence, so there is no concurrency to model.
