/** src/pipeline/index.ts: the `Pipeline` object, its `check` flow and the
    exit code it returns, and the coverage status written into a brain. */
module Pipeline {
  import opened Wrappers
  import opened Types
  import Collector
  import Profiler
  import Analyzer
  import Workflows
  import Rules

  /** What the pipeline reads from the outside world: the two ignore files
      (`None` when unreadable), the glob, `path.relative` from the root, the
      `localeCompare` order, the file texts and the `package.json` parser. */
  datatype Host = Host(
    gitignore: Option<string>,
    aibrainignore: Option<string>,
    glob: Collector.Globber,
    relative: string -> string,
    le: (string, string) -> bool,
    texts: map<string, string>,
    parse: Workflows.ScriptsParser)

  /** The exit code of `check`: 2 for a hard violation, else 1 for a
      warning, else 0. */
  function ExitCode(result: CheckResult): (code: int)
    ensures code == 2 <==> result.hasHardViolations
    ensures code == 1 <==> !result.hasHardViolations && result.hasWarnings
    ensures code == 0 <==> !result.hasHardViolations && !result.hasWarnings
  {
    if result.hasHardViolations then 2 else if result.hasWarnings then 1 else 0
  }

  /** The `status` of a brain built from a snapshot. */
  function BrainStatus(snapshot: RepoSnapshot): (s: Status)
    ensures s.coverage.filesScanned == |snapshot.files|
    ensures s.coverage.filesIgnored == 0 && s.conflicts == []
  {
    Status(Coverage(|snapshot.files|, 0), [])
  }

  /** The snapshot both flows start from. */
  function SnapshotFor(root: string, config: Config, host: Host): RepoSnapshot {
    Collector.SnapshotOf(root, config, host.gitignore, host.aibrainignore, host.glob, host.relative, host.le, host.texts)
  }

  /** What `check` resolves to, or the failure that rejects it. */
  function CheckOutcome(root: string, config: Config, host: Host): Result<int, string> {
    match Analyzer.AnalysisOf(SnapshotFor(root, config, host), host.parse)
    case Failure(e) => Failure(e)
    case Success(analysis) => Success(ExitCode(Rules.CheckRules(Rules.SynthesizeRules(analysis), analysis)))
  }

  class Pipeline {
    var root: string
    var config: Config

    constructor(root: string, config: Config)
      ensures this.root == root && this.config == config
    {
      this.root := root;
      this.config := config;
    }

    /** `check`: collect, profile, analyze, synthesize the rules, check
        them, and turn the result into an exit code. */
    method Check(host: Host) returns (r: Result<int, string>)
      ensures r == CheckOutcome(root, config, host)
    {
      var snapshot := Collector.Collect(root, config, host.gitignore, host.aibrainignore, host.glob, host.relative, host.le, host.texts);
      var repoProfile := Profiler.ProfileSnapshot(snapshot);
      var analysis := Analyzer.Analyze(snapshot, repoProfile, host.parse);
      if analysis.Failure? {
        return Failure(analysis.error);
      }
      var rules := Rules.SynthesizeRules(analysis.value);
      var results := Rules.CheckRules(rules, analysis.value);
      r := Success(ExitCode(results));
    }
  }

  // ---- properties ------------------------------------------------------------

  /** Every exit code is 0, 1 or 2, and a hard violation wins over a
      warning. */
  lemma ExitCodeRange(result: CheckResult)
    ensures ExitCode(result) in {0, 1, 2}
    ensures result.hasHardViolations ==> ExitCode(result) == 2
  {
  }

  /** With the rules the synthesizer produces and the checker as it stands,
      `check` resolves to 0 whenever the analysis succeeds; it is rejected
      exactly when the import scan fails. */
  lemma CheckAlwaysPasses(root: string, config: Config, host: Host)
    ensures CheckOutcome(root, config, host).Success? ==> CheckOutcome(root, config, host).value == 0
    ensures CheckOutcome(root, config, host).Success?
      <==> Analyzer.AnalysisOf(SnapshotFor(root, config, host), host.parse).Success?
  {
  }

  /** The coverage a brain reports never exceeds the collector's file cap
      (at least one file, whatever the setting). */
  lemma CoverageWithinCap(root: string, config: Config, host: Host)
    ensures BrainStatus(SnapshotFor(root, config, host)).coverage.filesScanned
      <= Collector.Limit(Collector.MaxFiles(config))
  {
    var entries := host.glob(config.includeGlobs, Collector.IgnoresOf(config, host.gitignore, host.aibrainignore, Collector.DefaultIgnores));
    Collector.SelectionBounds(Collector.SortedEntries(entries, host.relative, host.le),
      Collector.MaxBytes(config), Collector.MaxFiles(config), host.relative);
  }
}
