/**
 * `createAnalysisPrompt`: the instruction text sent to the model. It is a
 * plain function of the source text, the file name, the detected language
 * and that language's context, with the source embedded verbatim in a
 * fenced block labelled with the lower-cased language.
 */
module Prompt {
  import opened Common
  import opened Language

  /** The reply format the prompt asks the model for, line by line. */
  const ResponseSchemaLines: seq<string> := [
    "{",
    "  \"errors\": [",
    "    {",
    "      \"line\": <number>,",
    "      \"column\": <number>,",
    "      \"word\": \"<problematic_token>\",",
    "      \"type\": \"<specific_error_type>\",",
    "      \"level\": \"<architectural|syntax|logical|performance|security>\",",
    "      \"message\": \"<detailed_description>\",",
    "      \"severity\": \"<critical|high|medium|low>\",",
    "      \"context\": \"<surrounding_code_context>\"",
    "    }",
    "  ],",
    "  \"suggestions\": [",
    "    {",
    "      \"line\": <number>,",
    "      \"type\": \"<improvement_type>\",",
    "      \"level\": \"<architectural|syntax|logical|performance|security>\",",
    "      \"message\": \"<detailed_suggestion>\",",
    "      \"fix\": \"<specific_code_fix>\",",
    "      \"reasoning\": \"<why_this_improvement>\"",
    "    }",
    "  ],",
    "  \"codeMetrics\": {",
    "    \"complexity\": \"<low|medium|high>\",",
    "    \"maintainability\": \"<poor|fair|good|excellent>\",",
    "    \"testability\": \"<poor|fair|good|excellent>\",",
    "    \"performance\": \"<poor|fair|good|excellent>\"",
    "  },",
    "  \"summary\": {",
    "    \"totalErrors\": <number>,",
    "    \"criticalErrors\": <number>,",
    "    \"warnings\": <number>,",
    "    \"codeQuality\": \"<excellent|good|fair|poor>\",",
    "    \"errorsByLevel\": {",
    "      \"architectural\": <number>,",
    "      \"syntax\": <number>,",
    "      \"logical\": <number>,",
    "      \"performance\": <number>,",
    "      \"security\": <number>",
    "    },",
    "    \"confidence\": \"<high|medium|low>\"",
    "  }",
    "}"
  ]

  /** The closing checklist of the prompt, line by line. */
  const FocusAreaLines: seq<string> := [
    "- Syntax errors and typos",
    "- Logic flaws and incorrect implementations",
    "- Performance bottlenecks",
    "- Security vulnerabilities",
    "- Modern best practices violations",
    "- Framework-specific issues",
    "- Code organization and architecture",
    "- Type safety (for typed languages)",
    "- Error handling patterns",
    "- Resource management"
  ]

  /** `code.split('\n').length`. */
  function LineCount(code: string): (n: nat)
    ensures n == CountChar(code, '\n') + 1
  {
    |SplitOn(code, '\n')|
  }

  const RoleText := "You are an expert code reviewer with deep knowledge of "
  const ExpertiseText := " and modern development practices.\n\nCRITICAL ANALYSIS INSTRUCTIONS:\n1. This is "
  const ActualCodeText := "\n2. Analyze ACTUAL CODE - not generic patterns\n3. Be contextually aware of "
  const ConventionsText :=
    " conventions and modern practices\n4. Return ONLY valid JSON - no markdown, no extra text\n\nLANGUAGE CONTEXT:\n- Language: "

  /** The prompt up to the character count: role, language and quoted file name. */
  function Opening(language: string, filename: string): string
  {
    RoleText + language + ExpertiseText + language + " code from \"" + filename + "\" ("
  }

  /** From the end of the size line to the language context: the numbered instructions. */
  function Guidance(language: string): string
  {
    " lines)" + (ActualCodeText + language + ConventionsText + language + "\n")
  }

  /** The language context's three lists, each joined with commas. */
  function ContextBlock(ctx: LanguageContext): string
  {
    "- Common Issues: " + Join(ctx.commonErrors, ", ")
    + "\n- Frameworks/Tools: " + Join(ctx.frameworks, ", ")
    + "\n- Modern Features: " + Join(ctx.modernFeatures, ", ")
  }

  const RequirementsHeading := "SPECIFIC ANALYSIS REQUIREMENTS:\n"
  const CodeHeading := "\n\nCODE TO ANALYZE:\n"

  /** The heading and the language's requirement line. */
  function RequirementsBlock(language: string): string
  {
    RequirementsHeading + GetSpecificRequirements(language)
  }

  /** Everything between the size line's numbers and the opening fence. */
  function Instructions(language: string, ctx: LanguageContext): string
  {
    Guidance(language) + (ContextBlock(ctx) + ("\n\n" + (RequirementsBlock(language) + CodeHeading)))
  }

  /** The opening fence of the code block, labelled with the lower-cased language. */
  function CodeFence(language: string): string
  {
    "```" + ToLower(language) + "\n"
  }

  /** The closing fence of the code block. */
  const ClosingFence: string := "\n```"

  /** Everything after the closing fence: the reply schema and the focus areas. */
  const Trailer: string :=
    "\n\nReturn this EXACT JSON structure:\n" + Join(ResponseSchemaLines, "\n")
    + "\n\nANALYSIS FOCUS AREAS:\n" + Join(FocusAreaLines, "\n")

  /**
   * `createAnalysisPrompt(code, filename, language, context)`: the pieces
   * above in order, with the character and line counts of the source in
   * the first instruction and the source itself inside the fences.
   */
  function AnalysisPrompt(code: string, filename: string, language: string, ctx: LanguageContext): string
  {
    Opening(language, filename)
    + (NatToString(|code|) + (" chars, " + (NatToString(LineCount(code))
    + (Instructions(language, ctx) + (CodeFence(language) + (code + (ClosingFence + Trailer)))))))
  }

  /** `s` ends with `t`. */
  predicate EndsWith(s: string, t: string)
  {
    |t| <= |s| && s[|s| - |t|..] == t
  }

  /**
   * The source text sits verbatim at the end of the prompt, between a
   * fence labelled with the lower-cased language and a closing fence
   * followed by the fixed trailer.
   */
  lemma PromptEmbedsCode(code: string, filename: string, language: string, ctx: LanguageContext)
    ensures EndsWith(AnalysisPrompt(code, filename, language, ctx),
                     CodeFence(language) + (code + (ClosingFence + Trailer)))
  {
    EndsWithTail(Opening(language, filename), NatToString(|code|), NatToString(LineCount(code)),
      Instructions(language, ctx), CodeFence(language) + (code + (ClosingFence + Trailer)));
  }

  /** The prompt's shape, with every piece left open: the last piece ends it. */
  lemma EndsWithTail(o: string, n: string, l: string, i: string, t: string)
    ensures EndsWith(o + (n + (" chars, " + (l + (i + t)))), t)
  {
    var pre := o + n + " chars, " + l + i;
    assert o + (n + (" chars, " + (l + (i + t)))) == pre + t;
    assert (pre + t)[|pre + t| - |t|..] == t;
  }

  /** The language's context lists and its requirement line are both in the prompt. */
  lemma PromptCarriesLanguageHints(code: string, filename: string, language: string, ctx: LanguageContext)
    ensures Contains(AnalysisPrompt(code, filename, language, ctx), ContextBlock(ctx))
    ensures Contains(AnalysisPrompt(code, filename, language, ctx),
                     RequirementsHeading + GetSpecificRequirements(language))
  {
    HoldsMiddlePieces(Opening(language, filename), NatToString(|code|), NatToString(LineCount(code)),
      Guidance(language), ContextBlock(ctx), RequirementsBlock(language),
      CodeFence(language) + (code + (ClosingFence + Trailer)));
  }

  /** The prompt's shape, with every piece left open: the context block and the requirements are inside. */
  lemma HoldsMiddlePieces(o: string, n: string, l: string, g: string, cb: string, rq: string, r: string)
    ensures var p := o + (n + (" chars, " + (l + ((g + (cb + ("\n\n" + (rq + CodeHeading)))) + r))));
            Contains(p, cb) && Contains(p, rq)
  {
    var s, ca := "\n\n", CodeHeading;
    Nest9(o, n, " chars, ", l, g, cb, s, rq, ca, r);
    ContainsMiddle(o + n + " chars, " + l + g, cb, s + (rq + ca) + r);
    ContainsMiddle(o + n + " chars, " + l + g + cb + s, rq, ca + r);
  }

  lemma Nest9(o: string, n: string, cs: string, l: string, g: string, cb: string, s: string, rq: string, ca: string, r: string)
    ensures o + (n + (cs + (l + ((g + (cb + (s + (rq + ca)))) + r))))
         == (o + n + cs + l + g) + (cb + (s + (rq + ca) + r))
    ensures o + (n + (cs + (l + ((g + (cb + (s + (rq + ca)))) + r))))
         == (o + n + cs + l + g + cb + s) + (rq + (ca + r))
  {
  }

  /** The instructions after the counts start with a space, not a digit. */
  lemma InstructionsStartWithSpace(language: string, ctx: LanguageContext)
    ensures |Instructions(language, ctx)| > 0 && Instructions(language, ctx)[0] == ' '
  {
    var g := Guidance(language);
    assert g == " lines)" + (ActualCodeText + language + ConventionsText + language + "\n");
    assert g[0] == ' ';
  }

  /**
   * For a fixed file name, language and context, different source texts
   * give different prompts: the prompt determines the code it embeds.
   */
  lemma PromptDeterminesCode(c1: string, c2: string, filename: string, language: string, ctx: LanguageContext)
    requires AnalysisPrompt(c1, filename, language, ctx) == AnalysisPrompt(c2, filename, language, ctx)
    ensures c1 == c2
  {
    InstructionsStartWithSpace(language, ctx);
    CountsDetermineText(Opening(language, filename), NatToString(|c1|), NatToString(LineCount(c1)),
      Instructions(language, ctx), CodeFence(language), c1, ClosingFence + Trailer,
      NatToString(|c2|), NatToString(LineCount(c2)), c2);
  }

  /**
   * Shape of the prompt with everything but the source text held fixed:
   * the two rendered counts are read back as digit runs, and what follows
   * them determines the text.
   */
  lemma CountsDetermineText(o: string, n1: string, l1: string, m: string, f: string, c1: string, k: string,
                            n2: string, l2: string, c2: string)
    requires AllDigits(n1) && AllDigits(l1) && AllDigits(n2) && AllDigits(l2)
    requires |m| > 0 && !IsDigit(m[0])
    requires o + (n1 + (" chars, " + (l1 + (m + (f + (c1 + k))))))
          == o + (n2 + (" chars, " + (l2 + (m + (f + (c2 + k))))))
    ensures c1 == c2
  {
    var z1, z2 := f + (c1 + k), f + (c2 + k);
    var y1, y2 := l1 + (m + z1), l2 + (m + z2);
    PrefixCancel(o, n1 + (" chars, " + y1), n2 + (" chars, " + y2));
    DigitRunUnique(n1, " chars, " + y1, n2, " chars, " + y2);
    PrefixCancel(" chars, ", y1, y2);
    DigitRunUnique(l1, m + z1, l2, m + z2);
    PrefixCancel(m, z1, z2);
    PrefixCancel(f, c1 + k, c2 + k);
    SuffixCancel(c1, c2, k);
  }
}
