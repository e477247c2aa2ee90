/** src/rules/index.ts: the fixed rule policy, rule synthesis (which
    produces no rules yet) and the rule checker (which reports nothing yet). */
module Rules {
  import opened Types

  /** The string form of a confidence level. */
  function ConfidenceName(c: Confidence): string {
    match c
    case High => "HIGH"
    case Med => "MED"
    case Low => "LOW"
    case Conflict => "CONFLICT"
  }

  /** The `confidence_to_severity` table of the policy. */
  const SeverityTable: map<string, Severity> :=
    map["HIGH" := Hard, "MED" := Soft, "LOW" := UnknownSeverity, "CONFLICT" := UnknownSeverity]

  /** `synthesizeRules`. With more than one project the source computes
      the project names and then does nothing with them, so every analysis
      gets the same policy and no rules. */
  function SynthesizeRules(analysis: Analysis): (r: Types.Rules)
    ensures r.items == []
    ensures !r.policy.failOnWarnings
    ensures r.policy.confidenceToSeverity.Keys == {"HIGH", "MED", "LOW", "CONFLICT"}
  {
    Types.Rules(Policy(false, SeverityTable), [])
  }

  /** The severity the policy gives a confidence level. */
  function SeverityOf(policy: Policy, c: Confidence): Severity
    requires ConfidenceName(c) in policy.confidenceToSeverity
  {
    policy.confidenceToSeverity[ConfidenceName(c)]
  }

  /** `checkRules`: the import check is not written yet, so no violation is
      ever reported and neither flag is ever set. */
  function CheckRules(rules: Types.Rules, analysis: Analysis): (r: CheckResult)
    ensures r.violations == [] && !r.hasHardViolations && !r.hasWarnings
  {
    CheckResult(false, false, [])
  }

  // ---- properties ------------------------------------------------------------

  /** Every confidence level has a severity: HIGH is hard, MED soft, and
      LOW and CONFLICT unknown. */
  lemma PolicySeverities(analysis: Analysis, c: Confidence)
    ensures var policy := SynthesizeRules(analysis).policy;
      ConfidenceName(c) in policy.confidenceToSeverity
      && SeverityOf(policy, c) == (match c
        case High => Hard
        case Med => Soft
        case Low => UnknownSeverity
        case Conflict => UnknownSeverity)
  {
  }

  /** Synthesis ignores the analysis: whatever the project count, the rules
      are the same. */
  lemma SynthesisIgnoresAnalysis(a: Analysis, b: Analysis)
    ensures SynthesizeRules(a) == SynthesizeRules(b)
  {
  }

  /** Only HIGH-confidence findings would become hard rules. */
  lemma OnlyHighIsHard(analysis: Analysis, c: Confidence)
    ensures SeverityOf(SynthesizeRules(analysis).policy, c) == Hard <==> c == High
  {
  }
}
