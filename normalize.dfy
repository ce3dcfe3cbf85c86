/**
 * `validateAndEnhanceResult` and the two degraded reports.
 *
 * The parsed reply is a `RawResult`: for each top-level key the server
 * reads, whether it is absent, present but unusable, or present with a
 * value. Normalisation overlays it on a default report, keeps the findings
 * whose line lies inside the source, fills their column and context, gives
 * suggestions a default reasoning, and recomputes the summary counts.
 * A `TypeError` the source would throw is a `Failure`, which the pipeline
 * turns into the parse-failure report.
 */
module Normalize {
  import opened Common
  import opened Report

  // ---------------------------------------------------------------------
  // The parsed reply
  // ---------------------------------------------------------------------

  /** A top-level array key of the reply: absent, `null`, some other non-array value, or an array. */
  datatype Listing<T> = Absent | Null | NotArray | Items(items: seq<T>)

  /** The parts of a model-supplied summary object that survive normalisation. */
  datatype RawSummary = RawSummary(
    codeQuality: Option<string>,
    errorsByLevel: Option<map<string, Counter>>,
    confidence: Option<string>)

  /** The reply's `summary` key: absent, `null` or a primitive, or an object. */
  datatype SummaryField = NoSummary | NotAnObject | Given(raw: RawSummary)

  /** The reply's object; a top-level number, string, boolean or array reads as one without these keys. */
  datatype RawResult = RawResult(
    errors: Listing<Finding>,
    suggestions: Listing<Suggestion>,
    codeMetrics: Option<map<string, string>>,
    summary: SummaryField)

  /** What `JSON.parse` returned: `null`, or an object. */
  datatype ParsedReply = NullReply | Reply(result: RawResult)

  /** Stand-in for the message of a `TypeError` raised while normalising. */
  const TypeErrorMessage: string := "TypeError"

  // ---------------------------------------------------------------------
  // Line context
  // ---------------------------------------------------------------------

  /** `code.split('\n')`. */
  function Lines(code: string): (lines: seq<string>)
    ensures |lines| >= 1
  {
    SplitOn(code, '\n')
  }

  /** `${n}: ${line}`, the numbered form of one source line. */
  function Numbered(n: nat, line: string): string
  {
    NatToString(n) + ": " + line
  }

  /**
   * The numbered lines `getLineContext` joins: from the line before
   * `index` through the line after it, clipped to the source.
   */
  function ContextWindow(lines: seq<string>, index: int): (w: seq<string>)
    ensures 0 <= index < |lines| ==> |w| == Min(|lines|, index + 2) - Max(0, index - 1)
    ensures 0 <= index < |lines| ==> 1 <= |w| <= 3
    ensures 0 <= index < |lines| ==> w[if index == 0 then 0 else 1] == Numbered(index + 1, lines[index])
    ensures 0 <= index < |lines| ==>
              forall k :: 0 <= k < |w| ==> w[k] == Numbered(Max(0, index - 1) + k + 1, lines[Max(0, index - 1) + k])
    ensures !(0 <= index < |lines|) ==> w == []
  {
    if index < 0 || index >= |lines| then []
    else
      var start, end := Max(0, index - 1), Min(|lines|, index + 2);
      seq(end - start, k requires 0 <= k < end - start => Numbered(start + k + 1, lines[start + k]))
  }

  function Max(a: int, b: int): int { if a < b then b else a }
  function Min(a: int, b: int): int { if a < b then a else b }

  /** `getLineContext(lines, index)`. */
  function GetLineContext(lines: seq<string>, index: int): (ctx: string)
  {
    Join(ContextWindow(lines, index), "\n")
  }

  /** The context is empty exactly when the index is outside the source. */
  lemma LineContextEmptyIff(lines: seq<string>, index: int)
    ensures GetLineContext(lines, index) == "" <==> !(0 <= index < |lines|)
  {
    var w := ContextWindow(lines, index);
    if 0 <= index < |lines| {
      assert |w[0]| > 0;
      if |w| > 1 {
        assert GetLineContext(lines, index) == w[0] + "\n" + Join(w[1..], "\n");
      }
    }
  }

  // ---------------------------------------------------------------------
  // Findings and suggestions
  // ---------------------------------------------------------------------

  /** The filter on `error.line`: a present line number between 1 and the line count. */
  predicate InRange(f: Finding, lineCount: nat)
  {
    f.line.Some? && 0 < f.line.value <= lineCount
  }

  /** The `map` step: column defaults to 1, context to the finding's line window. */
  function Complete(f: Finding, lines: seq<string>): (g: Finding)
    requires InRange(f, |lines|)
  {
    f.(column := Some(OrInt(f.column, 1)),
       context := Some(Or(f.context, GetLineContext(lines, f.line.value - 1))))
  }

  /** The `filter` then `map` over the reply's findings. */
  function KeepFindings(es: seq<Finding>, lines: seq<string>): (kept: seq<Finding>)
    ensures |kept| <= |es|
  {
    if es == [] then []
    else if InRange(es[0], |lines|) then [Complete(es[0], lines)] + KeepFindings(es[1..], lines)
    else KeepFindings(es[1..], lines)
  }

  /** Normalising findings distributes over concatenation, so kept findings stay in order. */
  lemma {:induction false} KeepFindingsAppend(a: seq<Finding>, b: seq<Finding>, lines: seq<string>)
    ensures KeepFindings(a + b, lines) == KeepFindings(a, lines) + KeepFindings(b, lines)
    decreases |a|
  {
    if a == [] {
      assert a + b == b;
    } else {
      assert (a + b)[0] == a[0] && (a + b)[1..] == a[1..] + b;
      KeepFindingsAppend(a[1..], b, lines);
    }
  }

  /**
   * Every kept finding lies inside the source, has a non-zero column and a
   * non-empty context, and agrees with some input finding on everything
   * but column and context.
   */
  lemma {:induction false} KeptFindingsWellFormed(es: seq<Finding>, lines: seq<string>)
    ensures forall g :: g in KeepFindings(es, lines) ==>
              InRange(g, |lines|) && g.column.Some? && g.column.value != 0
              && g.context.Some? && g.context.value != ""
              && exists f :: f in es && InRange(f, |lines|) && g == Complete(f, lines)
    decreases |es|
  {
    if es != [] {
      KeptFindingsWellFormed(es[1..], lines);
      if InRange(es[0], |lines|) {
        LineContextEmptyIff(lines, es[0].line.value - 1);
        assert es[0] in es;
      }
      forall f | f in es[1..] ensures f in es { }
    }
  }

  /** The suggestions `map`: a reasoning is supplied only when the key is missing. */
  function CompleteSuggestion(s: Suggestion): (t: Suggestion)
    ensures s.reasoning.Some? ==> t == s
    ensures t.reasoning.Some? && t.(reasoning := s.reasoning) == s
  {
    if s.reasoning.None? then s.(reasoning := Some(DefaultReasoning)) else s
  }

  const DefaultReasoning: string := "Improves code quality"

  function CompleteSuggestions(ss: seq<Suggestion>): (ts: seq<Suggestion>)
    ensures |ts| == |ss|
    ensures forall i :: 0 <= i < |ss| ==> ts[i] == CompleteSuggestion(ss[i])
  {
    seq(|ss|, i requires 0 <= i < |ss| => CompleteSuggestion(ss[i]))
  }

  // ---------------------------------------------------------------------
  // Level counts
  // ---------------------------------------------------------------------

  /** `error.level || 'logical'`. */
  function LevelOf(f: Finding): string
  {
    Or(f.level, "logical")
  }

  /** `++` on a counter: a number grows by one, `NaN` stays `NaN`. */
  function Incremented(c: Counter): (d: Counter)
    ensures d.Count? <==> c.Count?
    ensures c.Count? ==> d.n == c.n + 1
  {
    match c
    case Count(n) => Count(n + 1)
    case NotANumber => NotANumber
  }

  /**
   * The names a plain object inherits whose `++` stores `NaN` as an own
   * key: `table[name]` is a function, so `!== undefined` lets it through.
   * The `__proto__` setter ignores the number it is given, so that name
   * changes nothing.
   */
  const CounterInheritedKeys: set<string> := ObjectPrototypeKeys - {"__proto__"}

  /**
   * One step of the `forEach`: bump the finding's level if the table
   * answers for it. As written an inherited name answers too and becomes
   * an own `NaN` entry; corrected, only the table's own keys count.
   */
  function Bump(p: Program, counts: map<string, Counter>, f: Finding): (r: map<string, Counter>)
    ensures counts.Keys <= r.Keys
    ensures p.Corrected? ==> r.Keys == counts.Keys
    ensures forall k :: k in r && k !in counts ==> p.AsWritten? && k == LevelOf(f) && k in CounterInheritedKeys && r[k] == NotANumber
    ensures forall k :: k in counts && k != LevelOf(f) ==> r[k] == counts[k]
  {
    var level := LevelOf(f);
    if level in counts then counts[level := Incremented(counts[level])]
    else if p.AsWritten? && level in CounterInheritedKeys then counts[level := NotANumber]
    else counts
  }

  /** The table after the `forEach` over `es`, starting from `start`. */
  function LevelTally(p: Program, es: seq<Finding>, start: map<string, Counter>): (r: map<string, Counter>)
    ensures start.Keys <= r.Keys
    ensures p.Corrected? ==> r.Keys == start.Keys
    ensures forall k :: k in r && k !in start ==> p.AsWritten? && k in CounterInheritedKeys && r[k] == NotANumber
  {
    if es == [] then start else Bump(p, LevelTally(p, es[..|es| - 1], start), es[|es| - 1])
  }

  /** The counting loop of `validateAndEnhanceResult`, in place on a copy of the table. */
  method TallyLevels(p: Program, es: seq<Finding>, start: map<string, Counter>) returns (counts: map<string, Counter>)
    ensures counts == LevelTally(p, es, start)
  {
    counts := start;
    var i := 0;
    while i < |es|
      invariant 0 <= i <= |es|
      invariant counts == LevelTally(p, es[..i], start)
    {
      var level := LevelOf(es[i]);
      if level in counts {
        counts := counts[level := Incremented(counts[level])];
      } else if p.AsWritten? && level in CounterInheritedKeys {
        counts := counts[level := NotANumber];
      }
      assert es[..i + 1][..i] == es[..i];
      i := i + 1;
    }
    assert es[..i] == es;
  }

  /** The default table: the five levels at zero. */
  const ZeroLevels: map<string, Counter> :=
    map["architectural" := Count(0), "syntax" := Count(0), "logical" := Count(0), "performance" := Count(0), "security" := Count(0)]

  /** Number of findings of `es` whose level, defaulted, is `level`. */
  function CountLevel(es: seq<Finding>, level: string): (n: nat)
    ensures n <= |es|
  {
    if es == [] then 0 else CountLevel(es[..|es| - 1], level) + (if LevelOf(es[|es| - 1]) == level then 1 else 0)
  }

  /**
   * In either program, a numeric counter the table starts with grows by
   * exactly the number of findings at its level.
   */
  lemma {:induction false} LevelTallyCounts(p: Program, es: seq<Finding>, start: map<string, Counter>, level: string)
    requires level in start && start[level].Count?
    ensures LevelTally(p, es, start)[level] == Count(start[level].n + CountLevel(es, level))
    decreases |es|
  {
    if es != [] {
      LevelTallyCounts(p, es[..|es| - 1], start, level);
    }
  }

  /**
   * When no finding's level is an inherited name the table lacks, the
   * tally as written is the corrected one.
   */
  lemma {:induction false} AsWrittenTallyAgrees(es: seq<Finding>, start: map<string, Counter>)
    requires forall i :: 0 <= i < |es| ==> LevelOf(es[i]) in start || LevelOf(es[i]) !in CounterInheritedKeys
    ensures LevelTally(AsWritten, es, start) == LevelTally(Corrected, es, start)
    decreases |es|
  {
    if es != [] {
      AsWrittenTallyAgrees(es[..|es| - 1], start);
    }
  }

  /**
   * A finding at level `toString` gives the default table a sixth, `NaN`
   * entry as written; one at level `__proto__` leaves it as it was.
   */
  lemma InheritedLevelAddsNaN(f: Finding, g: Finding)
    requires f.level == Some("toString") && g.level == Some("__proto__")
    ensures LevelTally(AsWritten, [f], ZeroLevels) == ZeroLevels["toString" := NotANumber]
    ensures LevelTally(AsWritten, [g], ZeroLevels) == ZeroLevels
    ensures LevelTally(Corrected, [f], ZeroLevels) == ZeroLevels
  {
    assert [f][..0] == [] && [g][..0] == [];
    assert LevelOf(f) == "toString" && LevelOf(g) == "__proto__";
    assert "toString" in CounterInheritedKeys && "__proto__" !in CounterInheritedKeys;
    assert LevelTally(AsWritten, [f], ZeroLevels) == Bump(AsWritten, ZeroLevels, f);
    assert LevelTally(AsWritten, [g], ZeroLevels) == Bump(AsWritten, ZeroLevels, g);
    assert LevelTally(Corrected, [f], ZeroLevels) == Bump(Corrected, ZeroLevels, f);
  }

  /** The five counters a report should carry for its findings. */
  function LevelCounts(es: seq<Finding>): (r: map<string, Counter>)
    ensures r.Keys == ZeroLevels.Keys
  {
    LevelTally(Corrected, es, ZeroLevels)
  }

  /** Counting from zero gives exactly the number of findings per level. */
  lemma LevelCountsExact(es: seq<Finding>, level: string)
    requires level in ZeroLevels
    ensures LevelCounts(es)[level] == Count(CountLevel(es, level))
  {
    LevelTallyCounts(Corrected, es, ZeroLevels, level);
  }

  /** The five per-level counts never add up to more than the number of findings. */
  lemma {:induction false} FiveLevelsBounded(es: seq<Finding>)
    ensures CountLevel(es, "architectural") + CountLevel(es, "syntax") + CountLevel(es, "logical")
            + CountLevel(es, "performance") + CountLevel(es, "security") <= |es|
    decreases |es|
  {
    if es != [] {
      FiveLevelsBounded(es[..|es| - 1]);
    }
  }

  /** The five level counters are numbers that never add up to more than the number of findings. */
  lemma LevelCountsBounded(es: seq<Finding>)
    ensures forall level :: level in ZeroLevels ==> LevelCounts(es)[level].Count?
    ensures var c := LevelCounts(es);
            c["architectural"].n + c["syntax"].n + c["logical"].n + c["performance"].n + c["security"].n <= |es|
  {
    forall level | level in ZeroLevels
      ensures LevelCounts(es)[level].Count?
    {
      LevelCountsExact(es, level);
    }
    LevelCountsExact(es, "architectural");
    LevelCountsExact(es, "syntax");
    LevelCountsExact(es, "logical");
    LevelCountsExact(es, "performance");
    LevelCountsExact(es, "security");
    FiveLevelsBounded(es);
  }

  // ---------------------------------------------------------------------
  // The normalised report
  // ---------------------------------------------------------------------

  /** The metrics used when the reply has none. */
  const DefaultMetrics: map<string, string> :=
    map["complexity" := "medium", "maintainability" := "fair", "testability" := "fair", "performance" := "fair"]

  /**
   * Whether a report's summary agrees with its own findings and
   * suggestions: totals, critical count, warnings, and a level table that
   * is exactly the per-level count of the findings.
   */
  predicate SummaryConsistent(r: AnalysisResult)
  {
    TotalsConsistent(r) && r.summary.errorsByLevel == Some(LevelCounts(r.errors))
  }

  /** The three summary counts agree with the findings and suggestions. */
  predicate TotalsConsistent(r: AnalysisResult)
  {
    r.summary.totalErrors == |r.errors|
    && r.summary.criticalErrors == CountSeverity(r.errors, "critical")
    && r.summary.warnings == |r.suggestions|
  }

  /** The findings kept from a reply, or `None` when the `filter` would throw. */
  function KeptFrom(raw: RawResult, lines: seq<string>): Option<seq<Finding>>
  {
    match raw.errors
    case Absent => Some([])
    case Items(es) => Some(KeepFindings(es, lines))
    case _ => None
  }

  /**
   * The suggestions kept from a reply, or `None` when reading their
   * length would throw (a `null` value) or when they are not an array
   * (see the README for what the source does then).
   */
  function SuggestionsFrom(raw: RawResult): Option<seq<Suggestion>>
  {
    match raw.suggestions
    case Absent => Some([])
    case Items(ss) => Some(CompleteSuggestions(ss))
    case _ => None
  }

  /**
   * `validateAndEnhanceResult` as written. A model-supplied summary
   * object is reused, so its own `errorsByLevel` counters are the
   * starting point of the tally, and a summary without them throws as
   * soon as there is a finding to count.
   */
  function EnhanceAsWritten(reply: ParsedReply, code: string): (r: Result<AnalysisResult, string>)
  {
    if reply.NullReply? then Failure(TypeErrorMessage)
    else
      var raw := reply.result;
      var lines := Lines(code);
      match (KeptFrom(raw, lines), SuggestionsFrom(raw))
      case (Some(kept), Some(sugg)) =>
        var metrics := if raw.codeMetrics.Some? then raw.codeMetrics.value else DefaultMetrics;
        var total, critical, warnings := |kept|, CountSeverity(kept, "critical"), |sugg|;
        (match raw.summary
         case NoSummary =>
           Success(AnalysisResult(kept, sugg, metrics,
             Summary(total, critical, warnings, Some("fair"), Some(LevelTally(AsWritten, kept, ZeroLevels)), Some("medium"))))
         case NotAnObject => Failure(TypeErrorMessage)
         case Given(s) =>
           if s.errorsByLevel.None? && kept != [] then Failure(TypeErrorMessage)
           else
             var levels := if s.errorsByLevel.Some? then Some(LevelTally(AsWritten, kept, s.errorsByLevel.value)) else None;
             Success(AnalysisResult(kept, sugg, metrics,
               Summary(total, critical, warnings, s.codeQuality, levels, s.confidence))))
      case _ => Failure(TypeErrorMessage)
  }

  /** One finding on line 1 at the logical level. */
  const LogicalFinding: Finding := Finding(Some(1), None, None, None, Some("logical"), None, None, None)

  /** A reply whose own summary already counts its one logical finding. */
  const SelfCountedReply: ParsedReply :=
    Reply(RawResult(Items([LogicalFinding]), Absent, None,
                    Given(RawSummary(None, Some(ZeroLevels["logical" := Count(1)]), None))))

  /**
   * The model's reply echoes the finding in its own level counters: one
   * logical finding on line 1 is reported as two as written, as one
   * corrected.
   */
  lemma ModelCountsAreDoubled()
    ensures var r := EnhanceAsWritten(SelfCountedReply, "x");
            r.Success? && r.value.summary.totalErrors == 1
            && r.value.summary.errorsByLevel == Some(ZeroLevels["logical" := Count(2)])
            && !SummaryConsistent(r.value)
    ensures var r := Enhance(SelfCountedReply, "x");
            r.Success? && r.value.summary.errorsByLevel == Some(ZeroLevels["logical" := Count(1)])
  {
    var f := LogicalFinding;
    var kept := KeepFindings([f], Lines("x"));
    LinesOfOneLine();
    assert kept == [Complete(f, ["x"])];
    assert kept[..0] == [];
    assert LevelOf(kept[0]) == "logical";
    assert LevelTally(AsWritten, kept, ZeroLevels["logical" := Count(1)]) == Bump(AsWritten, ZeroLevels["logical" := Count(1)], kept[0]);
    assert LevelTally(AsWritten, kept, ZeroLevels["logical" := Count(1)]) == ZeroLevels["logical" := Count(2)];
    assert LevelTally(Corrected, kept, ZeroLevels) == Bump(Corrected, LevelTally(Corrected, [], ZeroLevels), kept[0]);
    assert LevelCounts(kept) == ZeroLevels["logical" := Count(1)];
  }

  /** A reply whose summary has no level counters, with one finding on line 1. */
  const UncountedReply: ParsedReply :=
    Reply(RawResult(Items([Finding(Some(1), None, None, None, None, None, None, None)]), Absent, None,
                    Given(RawSummary(None, None, None))))

  /**
   * A model summary without level counters turns a usable reply into a
   * failure as written; corrected, it is normalised.
   */
  lemma MissingModelCountsFail()
    ensures EnhanceAsWritten(UncountedReply, "x").Failure?
    ensures Enhance(UncountedReply, "x").Success?
  {
    var f := Finding(Some(1), None, None, None, None, None, None, None);
    LinesOfOneLine();
    assert KeepFindings([f], ["x"]) == [Complete(f, ["x"])];
  }

  /** A source text without a line break is one line. */
  lemma LinesOfOneLine()
    ensures Lines("x") == ["x"]
  {
    var rest := SplitOn("", '\n');
    assert rest == [""];
    assert "x"[1..] == "" && "x"[0] == 'x';
    assert SplitOn("x", '\n') == [['x'] + rest[0]] + rest[1..];
    assert ['x'] + rest[0] == "x";
    assert rest[1..] == [];
    assert [['x'] + rest[0]] + rest[1..] == ["x"];
  }

  /**
   * `validateAndEnhanceResult` with the level counters recomputed from
   * zero, like the other summary counts, whatever the model reported.
   */
  function Enhance(reply: ParsedReply, code: string): (r: Result<AnalysisResult, string>)
  {
    if reply.NullReply? then Failure(TypeErrorMessage)
    else
      var raw := reply.result;
      var lines := Lines(code);
      match (KeptFrom(raw, lines), SuggestionsFrom(raw))
      case (Some(kept), Some(sugg)) =>
        var metrics := if raw.codeMetrics.Some? then raw.codeMetrics.value else DefaultMetrics;
        var total, critical, warnings := |kept|, CountSeverity(kept, "critical"), |sugg|;
        (match raw.summary
         case NoSummary =>
           Success(AnalysisResult(kept, sugg, metrics,
             Summary(total, critical, warnings, Some("fair"), Some(LevelCounts(kept)), Some("medium"))))
         case NotAnObject => Failure(TypeErrorMessage)
         case Given(s) =>
           Success(AnalysisResult(kept, sugg, metrics,
             Summary(total, critical, warnings, s.codeQuality, Some(LevelCounts(kept)), s.confidence))))
      case _ => Failure(TypeErrorMessage)
  }

  /**
   * Normalisation fails exactly on a `null` reply, findings or suggestions
   * that are not an array, or a non-object summary.
   */
  lemma EnhanceFailsIff(reply: ParsedReply, code: string)
    ensures Enhance(reply, code).Failure? <==>
              reply.NullReply?
              || reply.result.errors.Null? || reply.result.errors.NotArray?
              || reply.result.suggestions.Null? || reply.result.suggestions.NotArray?
              || reply.result.summary.NotAnObject?
  {
  }

  /** Every normalised report's summary agrees with its findings and suggestions. */
  lemma EnhanceConsistent(reply: ParsedReply, code: string)
    requires Enhance(reply, code).Success?
    ensures SummaryConsistent(Enhance(reply, code).value)
    ensures forall g :: g in Enhance(reply, code).value.errors ==> InRange(g, |Lines(code)|)
  {
    if reply.result.errors.Items? {
      KeptFindingsWellFormed(reply.result.errors.items, Lines(code));
    }
  }

  /**
   * Without a model summary, and with no finding at a level named like an
   * inherited member, the as-written and the corrected normalisation agree.
   */
  lemma AsWrittenAgreesWithoutModelSummary(reply: ParsedReply, code: string)
    requires reply.Reply? && reply.result.summary.NoSummary?
    requires reply.result.errors.Items? ==>
               forall f :: f in reply.result.errors.items ==> LevelOf(f) !in CounterInheritedKeys
    ensures EnhanceAsWritten(reply, code) == Enhance(reply, code)
  {
    var raw := reply.result;
    if raw.errors.Items? {
      var kept := KeepFindings(raw.errors.items, Lines(code));
      KeptFindingsWellFormed(raw.errors.items, Lines(code));
      forall i | 0 <= i < |kept|
        ensures LevelOf(kept[i]) in ZeroLevels || LevelOf(kept[i]) !in CounterInheritedKeys
      {
        assert kept[i] in kept;
      }
      AsWrittenTallyAgrees(kept, ZeroLevels);
    }
  }

  /** The normalisation a program runs: as written, or corrected. */
  function EnhanceIn(p: Program, reply: ParsedReply, code: string): (r: Result<AnalysisResult, string>)
    ensures r.Success? ==> TotalsConsistent(r.value)
    ensures r.Success? ==> forall g :: g in r.value.errors ==> InRange(g, |Lines(code)|)
    ensures p.Corrected? && r.Success? ==> SummaryConsistent(r.value)
  {
    var r := if p.AsWritten? then EnhanceAsWritten(reply, code) else Enhance(reply, code);
    if reply.Reply? && reply.result.errors.Items? then
      KeptFindingsWellFormed(reply.result.errors.items, Lines(code)); r
    else r
  }

  /** `validateAndEnhanceResult`, with its counting loop run in place. */
  method ValidateAndEnhance(p: Program, reply: ParsedReply, code: string) returns (r: Result<AnalysisResult, string>)
    ensures r == EnhanceIn(p, reply, code)
  {
    if reply.NullReply? {
      return Failure(TypeErrorMessage);
    }
    var raw := reply.result;
    var lines := Lines(code);
    var kept, sugg := KeptFrom(raw, lines), SuggestionsFrom(raw);
    if kept.None? || sugg.None? || raw.summary.NotAnObject? {
      return Failure(TypeErrorMessage);
    }
    var metrics := if raw.codeMetrics.Some? then raw.codeMetrics.value else DefaultMetrics;
    // The table the loop counts into: the default one, or as written the model's own.
    var start: Option<map<string, Counter>> := Some(ZeroLevels);
    var quality, confidence := Some("fair"), Some("medium");
    if raw.summary.Given? {
      quality, confidence := raw.summary.raw.codeQuality, raw.summary.raw.confidence;
      if p.AsWritten? {
        start := raw.summary.raw.errorsByLevel;
      }
    }
    var levels: Option<map<string, Counter>> := None;
    if start.Some? {
      var counts := TallyLevels(p, kept.value, start.value);
      levels := Some(counts);
    } else if kept.value != [] {
      // `undefined[level]`
      return Failure(TypeErrorMessage);
    }
    r := Success(AnalysisResult(kept.value, sugg.value, metrics,
      Summary(|kept.value|, CountSeverity(kept.value, "critical"), |sugg.value|, quality, levels, confidence)));
  }

  // ---------------------------------------------------------------------
  // Degraded reports
  // ---------------------------------------------------------------------

  /** The metrics of both degraded reports. */
  const UnknownMetrics: map<string, string> :=
    map["complexity" := "unknown", "maintainability" := "unknown", "testability" := "unknown", "performance" := "unknown"]

  /** `{ architectural: 0, syntax: 1, logical: 0, performance: 0, security: 0 }`. */
  const OneSyntaxLevel: map<string, Counter> := ZeroLevels["syntax" := Count(1)]

  /** `s.substring(0, n)`. */
  function Prefix(s: string, n: nat): (p: string)
    ensures |p| <= n && IsPrefix(p, s)
    ensures |s| <= n ==> p == s
  {
    if |s| <= n then s else s[..n]
  }

  const ParseFailureText := "Failed to parse AI analysis. This might indicate an issue with the AI response format. Error: "
  const RetryDescription := "The code analysis could not be completed due to a parsing error. Try analyzing this file again."
  const RetryExample := "Re-upload the file or check if the code contains unusual characters"
  const RetryBenefit := "Parser errors can be temporary or caused by edge cases in the code"

  /** `createFallbackResult`: the report for a reply that could not be parsed or normalised. */
  function FallbackResult(cleaned: string, message: string): (r: AnalysisResult)
  {
    AnalysisResult(
      [Finding(Some(1), Some(1), Some("response"), Some("parse_error"), Some("syntax"),
         Some(ParseFailureText + message),
         Some("medium"),
         Some("Raw response preview: " + Prefix(cleaned, 200) + "..."))],
      [Suggestion(Some(1), Some("retry_analysis"), Some("syntax"),
         Some(RetryDescription), Some(RetryExample), Some(RetryBenefit))],
      UnknownMetrics,
      Summary(1, 0, 1, Some("unknown"), Some(OneSyntaxLevel), Some("low")))
  }

  /**
   * The fallback report holds one syntax-level parse error and one
   * suggestion, and its summary agrees with them.
   */
  lemma FallbackShape(cleaned: string, message: string)
    ensures var r := FallbackResult(cleaned, message);
            |r.errors| == 1 && r.errors[0].kind == Some("parse_error") && r.errors[0].level == Some("syntax")
            && |r.suggestions| == 1 && SummaryConsistent(r)
  {
    var es := FallbackResult(cleaned, message).errors;
    OneSyntaxFinding(es);
  }

  /** A single syntax-level finding has the level table of the degraded reports. */
  lemma OneSyntaxFinding(es: seq<Finding>)
    requires |es| == 1 && es[0].level == Some("syntax")
    ensures LevelCounts(es) == OneSyntaxLevel
  {
    assert es[..0] == [];
    assert LevelTally(Corrected, es, ZeroLevels) == Bump(Corrected, LevelTally(Corrected, [], ZeroLevels), es[0]);
  }

  /** How `createErrorResult` classifies a failure by its message. */
  datatype FailureKind = RateLimit | QuotaExceeded | ApiError

  function Classify(message: string): (k: FailureKind)
  {
    if Contains(message, "429") then RateLimit
    else if Contains(message, "quota") || Contains(message, "limit") then QuotaExceeded
    else ApiError
  }

  function KindName(k: FailureKind): string
  {
    match k
    case RateLimit => "rate_limit"
    case QuotaExceeded => "quota_exceeded"
    case ApiError => "api_error"
  }

  /** `createErrorResult`: the report for a failed request to the model. */
  function ErrorResult(message: string, filename: string, language: string): (r: AnalysisResult)
  {
    var kind := Classify(message);
    var rateLimited := kind == RateLimit;
    AnalysisResult(
      [Finding(Some(1), Some(1), Some("api"), Some(KindName(kind)), Some("syntax"),
         Some("Analysis failed: " + message + ". "
              + (if rateLimited then "Rate limit exceeded. Try again in a few minutes." else "Check your API configuration.")),
         Some(if rateLimited then "medium" else "high"),
         Some("File: " + filename + ", Language: " + language))],
      [Suggestion(Some(1), Some("configuration_check"), Some("syntax"),
         Some(if rateLimited then "Wait before retrying" else "Verify API setup"),
         Some(if rateLimited then "Wait 1-2 minutes before analyzing more files" else "Check Gemini API key and quota limits"),
         Some("API errors prevent code analysis from completing"))],
      UnknownMetrics,
      Summary(1, if rateLimited then 0 else 1, 1, Some("unknown"), Some(OneSyntaxLevel), Some("low")))
  }

  /**
   * The error type is `rate_limit` exactly when the message mentions 429,
   * `quota_exceeded` exactly when it does not but mentions a quota or a
   * limit, and `api_error` otherwise; the critical count is 0 exactly for
   * a rate limit.
   */
  lemma ErrorResultClassification(message: string, filename: string, language: string)
    ensures var r := ErrorResult(message, filename, language);
            |r.errors| == 1
            && (r.errors[0].kind == Some("rate_limit") <==> Contains(message, "429"))
            && (r.errors[0].kind == Some("quota_exceeded") <==>
                  !Contains(message, "429") && (Contains(message, "quota") || Contains(message, "limit")))
            && (r.errors[0].kind == Some("api_error") <==>
                  !Contains(message, "429") && !Contains(message, "quota") && !Contains(message, "limit"))
            && (r.summary.criticalErrors == 0 <==> r.errors[0].kind == Some("rate_limit"))
  {
  }

  /**
   * The error report's summary counts a critical finding that is not
   * there: its one finding has severity "high", so the summary agrees with
   * the findings exactly for a rate limit.
   */
  lemma ErrorResultConsistentIff(message: string, filename: string, language: string)
    ensures SummaryConsistent(ErrorResult(message, filename, language)) <==> Classify(message) == RateLimit
  {
    var es := ErrorResult(message, filename, language).errors;
    OneSyntaxFinding(es);
  }
}
