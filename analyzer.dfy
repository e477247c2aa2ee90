/** src/analyzer/index.ts: the analysis record assembled from the three
    analyzers. */
module Analyzer {
  import opened Wrappers
  import opened Types
  import Structure
  import Imports
  import Workflows
  import Seqs

  /** What `analyze` resolves to, or the path whose read rejected the
      import scan (a rejection `analyze` passes on). */
  function AnalysisOf(snapshot: RepoSnapshot, parse: Workflows.ScriptsParser): Result<Analysis, string> {
    match Imports.ImportGraphOf(snapshot)
    case Failure(e) => Failure(e)
    case Success(graphs) =>
      Success(Analysis(Structure.StructureOf(snapshot.files), graphs, Workflows.WorkflowsOf(snapshot, parse)))
  }

  /** `analyze`: structure, then imports, then workflows. The profile
      argument is accepted and never read. */
  method Analyze(snapshot: RepoSnapshot, profile: Profile, parse: Workflows.ScriptsParser)
    returns (r: Result<Analysis, string>)
    ensures r == AnalysisOf(snapshot, parse)
  {
    var structure := Structure.InferStructure(snapshot);
    var graphs := Imports.ParseImports(snapshot);
    if graphs.Failure? {
      return Failure(graphs.error);
    }
    var workflows := Workflows.ExtractWorkflows(snapshot, parse);
    r := Success(Analysis(structure, graphs.value, workflows));
  }

  // ---- properties ------------------------------------------------------------

  /** Each field of the analysis is what its analyzer returns, and the
      analysis fails exactly when the import scan does. */
  lemma AnalysisFields(snapshot: RepoSnapshot, parse: Workflows.ScriptsParser)
    ensures AnalysisOf(snapshot, parse).Success? <==> Imports.ImportGraphOf(snapshot).Success?
    ensures AnalysisOf(snapshot, parse).Success? ==>
      var a := AnalysisOf(snapshot, parse).value;
      a.structure == Structure.StructureOf(snapshot.files)
      && Success(a.graphs) == Imports.ImportGraphOf(snapshot)
      && a.workflows == Workflows.WorkflowsOf(snapshot, parse)
  {
  }

  /** Put together with the analyzers' own properties: the structure has one
      project per `package.json`, and the import graph has no Python nodes
      and exactly one node per scanned file with a specifier. */
  lemma AnalysisShape(snapshot: RepoSnapshot, parse: Workflows.ScriptsParser)
    requires AnalysisOf(snapshot, parse).Success?
    ensures var a := AnalysisOf(snapshot, parse).value;
      |a.structure.projects| == |Seqs.Filter(snapshot.files, Structure.IsPackageFile)|
      && a.structure.domains == []
      && a.graphs.importsPy == map[]
  {
    Structure.ProjectsExactly(snapshot.files);
  }
}
