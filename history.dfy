/**
 * The counts `saveAnalysisToHistory` stores with a saved analysis: the
 * number of findings over all results and, per severity, the number of
 * findings whose severity is exactly that name (no default, case
 * sensitive).
 */
module History {
  import opened Common
  import opened Report
  import opened Review
  import opened Stats

  /** The counts stored in the history record. */
  datatype HistoryCounts = HistoryCounts(total: nat, critical: nat, high: nat, medium: nat, low: nat)

  /** `results.reduce((acc, r) => acc + (r.errors?.length || 0), 0)`. */
  function TotalErrors(results: seq<ReviewResult>): nat
  {
    if results == [] then 0
    else TotalErrors(results[..|results| - 1]) + |ErrorsOf(results[|results| - 1])|
  }

  /** `results.reduce((acc, r) => acc + (r.errors?.filter(e => e.severity === name)?.length || 0), 0)`. */
  function SeverityTotal(results: seq<ReviewResult>, name: string): nat
  {
    if results == [] then 0
    else SeverityTotal(results[..|results| - 1], name) + CountSeverity(ErrorsOf(results[|results| - 1]), name)
  }

  function HistoryCountsOf(results: seq<ReviewResult>): HistoryCounts
  {
    HistoryCounts(TotalErrors(results), SeverityTotal(results, "critical"), SeverityTotal(results, "high"),
                  SeverityTotal(results, "medium"), SeverityTotal(results, "low"))
  }

  /** All findings of all results, in order. */
  function AllErrors(results: seq<ReviewResult>): seq<Finding>
  {
    if results == [] then []
    else AllErrors(results[..|results| - 1]) + ErrorsOf(results[|results| - 1])
  }

  /** The per-result sums are counts over all findings at once. */
  lemma {:induction false} HistoryCountsAllErrors(results: seq<ReviewResult>, name: string)
    ensures TotalErrors(results) == |AllErrors(results)|
    ensures SeverityTotal(results, name) == CountSeverity(AllErrors(results), name)
  {
    if results != [] {
      var init := results[..|results| - 1];
      HistoryCountsAllErrors(init, name);
      CountSeverityAppend(AllErrors(init), ErrorsOf(results[|results| - 1]), name);
    }
  }

  /** A finding has at most one severity, so the four counts never exceed the findings. */
  lemma {:induction false} FourSeveritiesBounded(es: seq<Finding>)
    ensures CountSeverity(es, "critical") + CountSeverity(es, "high")
            + CountSeverity(es, "medium") + CountSeverity(es, "low") <= |es|
  {
    if es != [] {
      FourSeveritiesBounded(es[1..]);
    }
  }

  /** The severity counts of a history record never add up to more than its total. */
  lemma HistoryBucketsBounded(results: seq<ReviewResult>)
    ensures var h := HistoryCountsOf(results);
            h.critical + h.high + h.medium + h.low <= h.total
  {
    HistoryCountsAllErrors(results, "critical");
    HistoryCountsAllErrors(results, "high");
    HistoryCountsAllErrors(results, "medium");
    HistoryCountsAllErrors(results, "low");
    FourSeveritiesBounded(AllErrors(results));
  }

  /** With nothing accepted, the dashboard counts every finding of every result. */
  lemma {:induction false} NothingAcceptedCountsAll(results: seq<ReviewResult>)
    ensures Unresolved(results, {}) == AllErrors(results)
  {
    if results != [] {
      var last := results[|results| - 1];
      NothingAcceptedCountsAll(results[..|results| - 1]);
      NothingAcceptedKeepsResult(last.id, ErrorsOf(last));
    }
  }

  /** With nothing accepted, a result's findings are all kept. */
  lemma {:induction false} NothingAcceptedKeepsResult(id: string, es: seq<Finding>)
    ensures Unaccepted(id, es, {}) == es
  {
    if es != [] {
      NothingAcceptedKeepsResult(id, es[..|es| - 1]);
      assert es[..|es| - 1] + [es[|es| - 1]] == es;
    }
  }

  /** A severity is given, non-empty and already in lower case. */
  predicate PlainSeverity(f: Finding)
  {
    f.severity.Some? && f.severity.value != "" && ToLower(f.severity.value) == f.severity.value
  }

  /** Where every severity is plain, the defaulting, lower-casing count and the exact count agree. */
  lemma {:induction false} PlainSeverityCounts(fs: seq<Finding>, name: string)
    requires forall i :: 0 <= i < |fs| ==> PlainSeverity(fs[i])
    ensures SeverityCount(fs, name) == CountSeverity(fs, name)
  {
    if fs != [] {
      var init, last := fs[..|fs| - 1], fs[|fs| - 1];
      PlainSeverityCounts(init, name);
      CountSeverityAppend(init, [last], name);
      assert init + [last] == fs;
      assert CountSeverity([last], name) == if last.severity == Some(name) then 1 else 0;
    }
  }

  /**
   * When nothing is accepted and every severity is plain, the history
   * record and the dashboard's graph show the same counts.
   */
  lemma HistoryAgreesWithStats(results: seq<ReviewResult>)
    requires forall i :: 0 <= i < |AllErrors(results)| ==> PlainSeverity(AllErrors(results)[i])
    ensures var h, s := HistoryCountsOf(results), StatsOf(Unresolved(results, {}));
            h.total == |Unresolved(results, {})|
            && h.critical == s.critical && h.high == s.high && h.medium == s.medium && h.low == s.low
  {
    NothingAcceptedCountsAll(results);
    StatsAreBucketCounts(Unresolved(results, {}));
    var all := AllErrors(results);
    HistoryCountsAllErrors(results, "critical");
    HistoryCountsAllErrors(results, "high");
    HistoryCountsAllErrors(results, "medium");
    HistoryCountsAllErrors(results, "low");
    PlainSeverityCounts(all, "critical");
    PlainSeverityCounts(all, "high");
    PlainSeverityCounts(all, "medium");
    PlainSeverityCounts(all, "low");
  }
}
