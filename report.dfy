/**
 * The shape of an analysis report, as the server returns it and the
 * dashboard reads it. A field the JSON may omit is an `Option`; `kind`
 * stands for the JSON key `type`, which is a Dafny keyword.
 */
module Report {
  import opened Common

  /** The five levels a finding is classified under, in the dashboard's display order. */
  const LevelOrder: seq<string> := ["architectural", "syntax", "logical", "performance", "security"]

  /** One reported issue. */
  datatype Finding = Finding(
    line: Option<int>,
    column: Option<int>,
    word: Option<string>,
    kind: Option<string>,
    level: Option<string>,
    message: Option<string>,
    severity: Option<string>,
    context: Option<string>)

  /** One improvement proposal. */
  datatype Suggestion = Suggestion(
    line: Option<int>,
    kind: Option<string>,
    level: Option<string>,
    message: Option<string>,
    fix: Option<string>,
    reasoning: Option<string>)

  /**
   * One entry of `errorsByLevel`: a number, or `NaN` once `++` has been
   * applied to something that is not a number (JSON writes `NaN` as `null`).
   */
  datatype Counter = Count(n: int) | NotANumber

  /**
   * The report's summary block. `errorsByLevel` is `None` when the object
   * is missing (or null) in a summary the model supplied.
   */
  datatype Summary = Summary(
    totalErrors: int,
    criticalErrors: int,
    warnings: int,
    codeQuality: Option<string>,
    errorsByLevel: Option<map<string, Counter>>,
    confidence: Option<string>)

  /** A complete report: findings, suggestions, categorical metrics and summary. */
  datatype AnalysisResult = AnalysisResult(
    errors: seq<Finding>,
    suggestions: seq<Suggestion>,
    codeMetrics: map<string, string>,
    summary: Summary)

  /** Number of findings of `es` whose severity is exactly `severity` (case-sensitive, no default). */
  function CountSeverity(es: seq<Finding>, severity: string): (n: nat)
    ensures n <= |es|
  {
    if es == [] then 0
    else (if es[0].severity == Some(severity) then 1 else 0) + CountSeverity(es[1..], severity)
  }

  /** Counting distributes over concatenation. */
  lemma {:induction false} CountSeverityAppend(a: seq<Finding>, b: seq<Finding>, severity: string)
    ensures CountSeverity(a + b, severity) == CountSeverity(a, severity) + CountSeverity(b, severity)
    decreases |a|
  {
    if a != [] {
      assert (a + b)[0] == a[0] && (a + b)[1..] == a[1..] + b;
      CountSeverityAppend(a[1..], b, severity);
      assert CountSeverity(a + b, severity)
          == (if a[0].severity == Some(severity) then 1 else 0) + CountSeverity(a[1..] + b, severity);
    } else {
      assert a + b == b;
    }
  }
}
