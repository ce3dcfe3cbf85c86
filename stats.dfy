/**
 * `calculateStats`: the dashboard's roll-up of the findings that are not
 * accepted, by severity, by level and by compile-time versus run-time
 * kind. A missing severity counts as "medium", a missing level as
 * "logical"; both are compared in lower case, and a name outside the
 * known ones is counted in no bucket of its group.
 */
module Stats {
  import opened Common
  import opened Report
  import opened Review

  /** `(error.severity || 'medium').toLowerCase()`. */
  function SeverityName(f: Finding): string
  {
    ToLower(Or(f.severity, "medium"))
  }

  /** `(error.level || 'logical').toLowerCase()`. */
  function LevelName(f: Finding): string
  {
    ToLower(Or(f.level, "logical"))
  }

  /** `(error.type || '').toLowerCase()`. */
  function TypeName(f: Finding): string
  {
    ToLower(Or(f.kind, ""))
  }

  /** The type mentions compiling or syntax, or the level is syntax. */
  predicate IsCompileTime(f: Finding)
  {
    Contains(TypeName(f), "compile") || Contains(TypeName(f), "syntax") || LevelName(f) == "syntax"
  }

  const SeverityNames: set<string> := {"critical", "high", "medium", "low"}
  const LevelNames: set<string> := {"syntax", "architectural", "logical", "performance", "security"}

  // ---------------------------------------------------------------------
  // The findings that are counted
  // ---------------------------------------------------------------------

  /** The findings of one result, in order, whose key is not accepted. */
  function Unaccepted(id: string, es: seq<Finding>, accepted: set<string>): (r: seq<Finding>)
    ensures |r| <= |es|
  {
    if es == [] then []
    else
      var last := es[|es| - 1];
      Unaccepted(id, es[..|es| - 1], accepted) + (if ErrorKey(id, last) in accepted then [] else [last])
  }

  /** Scanning one more finding of a result keeps it unless its key is accepted. */
  lemma UnacceptedStep(id: string, es: seq<Finding>, j: nat, accepted: set<string>)
    requires j < |es|
    ensures Unaccepted(id, es[..j + 1], accepted)
            == Unaccepted(id, es[..j], accepted) + (if ErrorKey(id, es[j]) in accepted then [] else [es[j]])
  {
    assert es[..j + 1][..j] == es[..j];
  }

  /** The findings of all results, in order, whose key is not accepted. */
  function Unresolved(results: seq<ReviewResult>, accepted: set<string>): seq<Finding>
  {
    if results == [] then []
    else
      var last := results[|results| - 1];
      Unresolved(results[..|results| - 1], accepted) + Unaccepted(last.id, ErrorsOf(last), accepted)
  }

  /** A finding is kept exactly when it is among the result's findings and its key is not accepted. */
  lemma {:induction false} UnacceptedMembership(id: string, es: seq<Finding>, accepted: set<string>, f: Finding)
    ensures f in Unaccepted(id, es, accepted) <==> f in es && ErrorKey(id, f) !in accepted
  {
    if es != [] {
      var init := es[..|es| - 1];
      UnacceptedMembership(id, init, accepted, f);
      assert es == init + [es[|es| - 1]];
    }
  }

  /** Some result lists the finding and that result's key for it is not accepted. */
  predicate ListedUnaccepted(results: seq<ReviewResult>, accepted: set<string>, f: Finding)
  {
    exists i :: 0 <= i < |results| && f in ErrorsOf(results[i]) && ErrorKey(results[i].id, f) !in accepted
  }

  /** Looking at one more result: the finding is listed there or before. */
  lemma ListedStep(results: seq<ReviewResult>, accepted: set<string>, f: Finding)
    requires results != []
    ensures var n := |results| - 1;
            ListedUnaccepted(results, accepted, f)
            <==> ListedUnaccepted(results[..n], accepted, f)
                 || (f in ErrorsOf(results[n]) && ErrorKey(results[n].id, f) !in accepted)
  {
    var n := |results| - 1;
    if ListedUnaccepted(results, accepted, f) {
      var i :| 0 <= i < |results| && f in ErrorsOf(results[i]) && ErrorKey(results[i].id, f) !in accepted;
      if i < n {
        assert results[..n][i] == results[i];
      }
    }
    if ListedUnaccepted(results[..n], accepted, f) {
      var i :| 0 <= i < n && f in ErrorsOf(results[..n][i]) && ErrorKey(results[..n][i].id, f) !in accepted;
      assert results[..n][i] == results[i];
    }
  }

  /**
   * A finding is counted exactly when some result lists it and that
   * result's key for it is not accepted.
   */
  lemma {:induction false} UnresolvedMembership(results: seq<ReviewResult>, accepted: set<string>, f: Finding)
    ensures f in Unresolved(results, accepted) <==> ListedUnaccepted(results, accepted, f)
  {
    if results != [] {
      var n := |results| - 1;
      UnresolvedMembership(results[..n], accepted, f);
      UnacceptedMembership(results[n].id, ErrorsOf(results[n]), accepted, f);
      ListedStep(results, accepted, f);
    }
  }

  // ---------------------------------------------------------------------
  // Counting
  // ---------------------------------------------------------------------

  function SeverityCount(fs: seq<Finding>, name: string): (n: nat)
    ensures n <= |fs|
  {
    if fs == [] then 0
    else SeverityCount(fs[..|fs| - 1], name) + (if SeverityName(fs[|fs| - 1]) == name then 1 else 0)
  }

  function LevelCount(fs: seq<Finding>, name: string): (n: nat)
    ensures n <= |fs|
  {
    if fs == [] then 0
    else LevelCount(fs[..|fs| - 1], name) + (if LevelName(fs[|fs| - 1]) == name then 1 else 0)
  }

  function CompileTimeCount(fs: seq<Finding>): (n: nat)
    ensures n <= |fs|
  {
    if fs == [] then 0
    else CompileTimeCount(fs[..|fs| - 1]) + (if IsCompileTime(fs[|fs| - 1]) then 1 else 0)
  }

  function RuntimeCount(fs: seq<Finding>): (n: nat)
    ensures n <= |fs|
  {
    if fs == [] then 0
    else RuntimeCount(fs[..|fs| - 1]) + (if IsCompileTime(fs[|fs| - 1]) then 0 else 1)
  }

  /** The findings whose severity is none of the four known names. */
  function OtherSeverityCount(fs: seq<Finding>): (n: nat)
    ensures n <= |fs|
  {
    if fs == [] then 0
    else OtherSeverityCount(fs[..|fs| - 1]) + (if SeverityName(fs[|fs| - 1]) in SeverityNames then 0 else 1)
  }

  /** The findings whose level is none of the five known names. */
  function OtherLevelCount(fs: seq<Finding>): (n: nat)
    ensures n <= |fs|
  {
    if fs == [] then 0
    else OtherLevelCount(fs[..|fs| - 1]) + (if LevelName(fs[|fs| - 1]) in LevelNames then 0 else 1)
  }

  /** The object `calculateStats` returns. */
  datatype Stats = Stats(
    critical: nat, high: nat, medium: nat, low: nat, total: nat,
    syntax: nat, architectural: nat, logical: nat, performance: nat, security: nat,
    compileTime: nat, runtime: nat)

  /** All counters at zero. */
  const NoStats: Stats := Stats(0, 0, 0, 0, 0, 0, 0, 0, 0, 0, 0, 0)

  /** The counters after counting the given findings one by one, in order. */
  function StatsOf(fs: seq<Finding>): Stats
  {
    if fs == [] then NoStats else Count(StatsOf(fs[..|fs| - 1]), fs[|fs| - 1])
  }

  /** The roll-up bucket by bucket: each counter is the number of findings in its bucket. */
  function BucketStats(fs: seq<Finding>): Stats
  {
    var critical, high := SeverityCount(fs, "critical"), SeverityCount(fs, "high");
    var medium, low := SeverityCount(fs, "medium"), SeverityCount(fs, "low");
    Stats(critical, high, medium, low, critical + high + medium + low,
          LevelCount(fs, "syntax"), LevelCount(fs, "architectural"), LevelCount(fs, "logical"),
          LevelCount(fs, "performance"), LevelCount(fs, "security"),
          CompileTimeCount(fs), RuntimeCount(fs))
  }

  /**
   * Counting step by step gives, in every counter, the number of findings
   * in that counter's bucket; the total is the number of findings with one
   * of the four known severities.
   */
  lemma {:induction false} StatsAreBucketCounts(fs: seq<Finding>)
    ensures StatsOf(fs) == BucketStats(fs)
  {
    if fs != [] {
      StatsAreBucketCounts(fs[..|fs| - 1]);
    }
  }

  /** Every counted finding lands in one severity bucket or has an unknown severity. */
  lemma {:induction false} SeverityBuckets(fs: seq<Finding>)
    ensures StatsOf(fs).total + OtherSeverityCount(fs) == |fs|
  {
    StatsAreBucketCounts(fs);
    if fs != [] {
      SeverityBuckets(fs[..|fs| - 1]);
      StatsAreBucketCounts(fs[..|fs| - 1]);
    }
  }

  /** Every counted finding lands in one level bucket or has an unknown level. */
  lemma {:induction false} LevelBuckets(fs: seq<Finding>)
    ensures var s := StatsOf(fs);
            s.syntax + s.architectural + s.logical + s.performance + s.security + OtherLevelCount(fs) == |fs|
  {
    StatsAreBucketCounts(fs);
    if fs != [] {
      LevelBuckets(fs[..|fs| - 1]);
      StatsAreBucketCounts(fs[..|fs| - 1]);
    }
  }

  /** Every counted finding is either compile-time or run-time, never both. */
  lemma {:induction false} KindBuckets(fs: seq<Finding>)
    ensures StatsOf(fs).compileTime + StatsOf(fs).runtime == |fs|
  {
    StatsAreBucketCounts(fs);
    if fs != [] {
      KindBuckets(fs[..|fs| - 1]);
      StatsAreBucketCounts(fs[..|fs| - 1]);
    }
  }

  /** A finding that gives no severity is counted as medium, one that gives no level as logical. */
  lemma MissingNamesDefault(f: Finding)
    requires f.severity.None? && f.level.None?
    ensures StatsOf([f]).medium == 1 && StatsOf([f]).total == 1
    ensures StatsOf([f]).logical == 1 && StatsOf([f]).runtime + StatsOf([f]).compileTime == 1
  {
    assert [f][..0] == [];
    NoUpperIsLower("medium");
    NoUpperIsLower("logical");
  }

  /**
   * The body of the inner `forEach` for a finding that is not accepted:
   * the severity switch, the level switch and the type test each bump one
   * counter, or none for an unknown name; the total stays the sum of the
   * four severity counters.
   */
  function Count(s: Stats, f: Finding): Stats
  {
    var severity, level := SeverityName(f), LevelName(f);
    var critical := s.critical + (if severity == "critical" then 1 else 0);
    var high := s.high + (if severity == "high" then 1 else 0);
    var medium := s.medium + (if severity == "medium" then 1 else 0);
    var low := s.low + (if severity == "low" then 1 else 0);
    Stats(critical, high, medium, low, critical + high + medium + low,
          s.syntax + (if level == "syntax" then 1 else 0),
          s.architectural + (if level == "architectural" then 1 else 0),
          s.logical + (if level == "logical" then 1 else 0),
          s.performance + (if level == "performance" then 1 else 0),
          s.security + (if level == "security" then 1 else 0),
          s.compileTime + (if IsCompileTime(f) then 1 else 0),
          s.runtime + (if IsCompileTime(f) then 0 else 1))
  }

  /** Counting one more finding is one more step. */
  lemma StatsAppend(fs: seq<Finding>, f: Finding)
    ensures StatsOf(fs + [f]) == Count(StatsOf(fs), f)
  {
    assert (fs + [f])[..|fs|] == fs;
  }

  // ---------------------------------------------------------------------
  // The loop
  // ---------------------------------------------------------------------

  /**
   * `calculateStats`: one pass over every result, counting the findings
   * whose key is not accepted.
   */
  method CalculateStats(results: seq<ReviewResult>, accepted: set<string>) returns (stats: Stats)
    ensures stats == StatsOf(Unresolved(results, accepted))
  {
    stats := NoStats;
    var i := 0;
    while i < |results|
      invariant 0 <= i <= |results|
      invariant stats == StatsOf(Unresolved(results[..i], accepted))
    {
      assert results[..i + 1][..i] == results[..i];
      stats := CountResult(stats, results[i], accepted, Unresolved(results[..i], accepted));
      i := i + 1;
    }
    assert results[..i] == results;
  }

  /**
   * The inner `forEach` over one result's findings: a finding whose key is
   * accepted is skipped, every other one is counted on top of the counts
   * of the findings seen before.
   */
  method CountResult(counts: Stats, result: ReviewResult, accepted: set<string>, ghost seen: seq<Finding>)
    returns (stats: Stats)
    requires counts == StatsOf(seen)
    ensures stats == StatsOf(seen + Unaccepted(result.id, ErrorsOf(result), accepted))
  {
    var errors := ErrorsOf(result);
    stats := counts;
    UnacceptedEmptyPrefix(result.id, errors, accepted);
    assert seen + [] == seen;
    var j := 0;
    while j < |errors|
      invariant 0 <= j <= |errors|
      invariant stats == StatsOf(seen + Unaccepted(result.id, errors[..j], accepted))
    {
      CountStep(seen, result.id, errors, j, accepted);
      if ErrorKey(result.id, errors[j]) !in accepted {
        stats := CountOne(stats, seen + Unaccepted(result.id, errors[..j], accepted), errors[j]);
      }
      j := j + 1;
    }
    assert errors[..j] == errors;
  }

  /** Before the first finding, nothing of the result is counted. */
  lemma UnacceptedEmptyPrefix(id: string, es: seq<Finding>, accepted: set<string>)
    ensures Unaccepted(id, es[..0], accepted) == []
  {
    assert es[..0] == [];
  }

  /** The severity switch, the level switch and the type test for one finding. */
  method CountOne(counts: Stats, ghost before: seq<Finding>, f: Finding) returns (stats: Stats)
    requires counts == StatsOf(before)
    ensures stats == StatsOf(before + [f])
  {
    stats := Count(counts, f);
    StatsAppend(before, f);
  }

  /** One turn of the inner loop: an accepted finding leaves the counts alone, another is counted. */
  lemma CountStep(seen: seq<Finding>, id: string, es: seq<Finding>, j: nat, accepted: set<string>)
    requires j < |es|
    ensures var before := seen + Unaccepted(id, es[..j], accepted);
            seen + Unaccepted(id, es[..j + 1], accepted)
            == if ErrorKey(id, es[j]) in accepted then before else before + [es[j]]
  {
    var kept := Unaccepted(id, es[..j], accepted);
    UnacceptedStep(id, es, j, accepted);
    if ErrorKey(id, es[j]) !in accepted {
      assert seen + (kept + [es[j]]) == seen + kept + [es[j]];
    } else {
      assert kept + [] == kept;
    }
  }
}
