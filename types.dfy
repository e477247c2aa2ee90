/** The records of src/types/index.ts. Optional TypeScript fields are
    `Option`s; a string-keyed `Record` is a `map`. */
module Types {
  import opened Wrappers

  datatype Config = Config(
    brainDir: Option<string>,
    maxFileKb: Option<int>,
    maxFiles: Option<int>,
    includeGlobs: seq<string>,
    excludeGlobs: seq<string>,
    storeSnippets: Option<bool>)

  datatype FileEntry = FileEntry(path: string, size: nat)

  /** A repository snapshot. `readText` is the map `contents`: reading a path
      that is not a key fails. */
  datatype RepoSnapshot = RepoSnapshot(root: string, files: seq<FileEntry>, contents: map<string, string>)

  datatype Profile = Profile(languages: seq<string>, frameworks: seq<string>, packageManagers: seq<string>)

  datatype ProjectType = App | Package | Service | Library | UnknownType

  datatype Project = Project(path: string, kind: ProjectType, name: string)

  datatype ProjectStructure = ProjectStructure(projects: seq<Project>, boundaries: seq<string>, domains: seq<string>)

  datatype ImportNode = ImportNode(path: string, imports: seq<string>)

  datatype ImportGraph = ImportGraph(importsTs: map<string, ImportNode>, importsPy: map<string, ImportNode>)

  datatype CommandSource = PackageJsonSource | MakefileSource | DockerComposeSource | ReadmeSource

  /** The confidence labels 'HIGH' | 'MED' | 'LOW' | 'CONFLICT' (workflow
      commands use the first three). */
  datatype Confidence = High | Med | Low | Conflict

  datatype WorkflowCommand = WorkflowCommand(
    name: string, command: string, cwd: Option<string>, source: CommandSource, confidence: Confidence)

  datatype Workflows = Workflows(commands: seq<WorkflowCommand>)

  datatype Analysis = Analysis(structure: ProjectStructure, graphs: ImportGraph, workflows: Workflows)

  datatype Convention = Convention(convId: string, description: string, confidence: Confidence, examples: seq<string>)

  datatype Conventions = Conventions(items: seq<Convention>)

  datatype RuleType = NoImport | AllowedImports | LayerOrder | NoCrossProjectImport | MustUseCommand | NamingConvention

  datatype Severity = Hard | Soft | UnknownSeverity

  datatype Rule = Rule(
    ruleId: string, ruleType: RuleType, params: map<string, string>, severity: Severity,
    rationale: Option<string>, evidence: seq<string>, scope: Option<seq<string>>)

  datatype Policy = Policy(failOnWarnings: bool, confidenceToSeverity: map<string, Severity>)

  datatype Rules = Rules(policy: Policy, items: seq<Rule>)

  datatype EvidenceKind = Code | ConfigKind | Doc

  datatype RawEvidenceItem = RawEvidenceItem(
    path: string, kind: EvidenceKind, startLine: Option<int>, endLine: Option<int>,
    contentHash: Option<string>, snippet: Option<string>)

  datatype EvidenceRecord = EvidenceRecord(
    path: string, kind: EvidenceKind, startLine: Option<int>, endLine: Option<int>, excerptHash: Option<string>)

  type EvidenceIndex = map<string, EvidenceRecord>

  datatype Coverage = Coverage(filesScanned: nat, filesIgnored: nat)

  datatype Status = Status(coverage: Coverage, conflicts: seq<string>)

  /** An entry of the rule checker's `violations` list, which the checker
      never fills. */
  datatype Violation = Violation(ruleId: string, fromPath: string, specifier: string, severity: Severity)

  datatype CheckResult = CheckResult(hasHardViolations: bool, hasWarnings: bool, violations: seq<Violation>)
}
