/**
 * Language classification and the per-language lookup tables of the
 * analysis server: `detectLanguage`, `getLanguageContext` and
 * `getSpecificRequirements`.
 */
module Language {
  import opened Common

  // ---------------------------------------------------------------------
  // Node's `path.basename` and `path.extname` (POSIX flavour)
  // ---------------------------------------------------------------------

  function StripTrailingSlashes(p: string): (r: string)
    ensures |r| <= |p| && r == p[..|r|]
    ensures r == [] || r[|r| - 1] != '/'
  {
    if p != [] && p[|p| - 1] == '/' then StripTrailingSlashes(p[..|p| - 1]) else p
  }

  /** `path.basename(p)`: the last path segment, trailing slashes ignored. */
  function Basename(p: string): (b: string)
    ensures '/' !in b
  {
    var q := StripTrailingSlashes(p);
    LastIndexOfLast(q, '/');
    match LastIndexOf(q, '/')
    case None => q
    case Some(i) => q[i + 1..]
  }

  /**
   * The extension of one path segment, as `path.extname` computes it: from
   * the last dot on, except when that dot is the segment's first character
   * (".bashrc") or the segment is "..".
   */
  function ExtOf(b: string): (e: string)
    ensures e == [] || (e[0] == '.' && '.' !in e[1..])
  {
    LastIndexOfLast(b, '.');
    match LastIndexOf(b, '.')
    case None => ""
    case Some(d) => if d == 0 || b == ".." then "" else b[d..]
  }

  /** `path.extname(p)`. */
  function Extname(p: string): string
  {
    ExtOf(Basename(p))
  }

  /** A segment appended after a slash is the basename of the joined path. */
  lemma BasenameOfJoined(dir: string, b: string)
    requires b != [] && '/' !in b
    ensures Basename(dir + "/" + b) == b
  {
    var p := dir + "/" + b;
    assert p[|p| - 1] == b[|b| - 1];
    assert StripTrailingSlashes(p) == p;
    assert p[|dir|] == '/';
    assert forall k :: |dir| < k < |p| ==> p[k] == b[k - |dir| - 1];
    assert p[|dir| + 1..] == b;
  }

  // ---------------------------------------------------------------------
  // detectLanguage
  // ---------------------------------------------------------------------

  /** The server's single table: extensions and exact file names share it. */
  const LangMap: map<string, string> := map[
    ".js" := "JavaScript",
    ".jsx" := "JavaScript/React",
    ".java" := "Java",
    ".cpp" := "C++",
    ".c" := "C",
    ".cs" := "C#",
    ".php" := "PHP",
    ".rb" := "Ruby",
    ".go" := "Go",
    ".rs" := "Rust",
    ".html" := "HTML",
    ".css" := "CSS",
    ".scss" := "SCSS",
    ".less" := "LESS",
    ".sql" := "SQL",
    ".json" := "JSON",
    ".sh" := "Shell",
    ".vue" := "Vue.js",
    ".swift" := "Swift",
    ".kt" := "Kotlin",
    ".dart" := "Dart",
    ".r" := "R",
    ".scala" := "Scala",
    ".pl" := "Perl",
    ".config.js" := "Configuration",
    "eslint.config.js" := "ESLint Config",
    "vite.config.js" := "Vite Config",
    "webpack.config.js" := "Webpack Config"
  ]

  const UnknownLanguage: string := "Unknown"

  /**
   * `detectLanguage`: the exact basename is looked up first (as written,
   * not lower-cased), then the lower-cased extension; anything else is
   * "Unknown". Only the table's own entries are consulted (see
   * DetectLanguageAsWritten for what the source does instead).
   */
  function DetectLanguage(filename: string): (language: string)
    ensures language == UnknownLanguage || language in LangMap.Values
    ensures Basename(filename) in LangMap ==> language == LangMap[Basename(filename)]
  {
    var b := Basename(filename);
    if b in LangMap then LangMap[b]
    else
      var e := ToLower(Extname(filename));
      if e in LangMap then LangMap[e] else UnknownLanguage
  }

  /** "Unknown" comes out exactly when neither the basename nor the extension is in the table. */
  lemma DetectLanguageUnknownIff(filename: string)
    ensures DetectLanguage(filename) == UnknownLanguage
            <==> Basename(filename) !in LangMap && ToLower(Extname(filename)) !in LangMap
  {
    assert UnknownLanguage !in LangMap.Values;
  }

  /** Where `vite.config.js` sits in a path: its basename, and its extension ".js". */
  lemma ViteConfigSegments(dir: string)
    ensures Basename(dir + "/vite.config.js") == "vite.config.js"
    ensures Extname(dir + "/vite.config.js") == ".js"
  {
    var b := "vite.config.js";
    BasenameOfJoined(dir, b);
    assert dir + "/" + b == dir + "/vite.config.js";
    assert b[11] == '.' && '.' !in b[12..];
    assert LastIndexOf(b, '.') == Some(11);
  }

  /** An exact file name wins over its extension: `vite.config.js` is not plain JavaScript. */
  lemma ExactNameWinsOverExtension(dir: string)
    ensures Extname(dir + "/vite.config.js") == ".js" && LangMap[".js"] == "JavaScript"
    ensures DetectLanguage(dir + "/vite.config.js") == "Vite Config"
  {
    ViteConfigSegments(dir);
  }

  /**
   * The ".config.js" entry can only be reached by a file named exactly
   * ".config.js": an extension never contains a second dot.
   */
  lemma ConfigurationOnlyByExactName(filename: string)
    ensures DetectLanguage(filename) == "Configuration" <==> Basename(filename) == ".config.js"
  {
    var x := Extname(filename);
    LowerKeepsInnerDots(x);
    NotConfigurationKey(ToLower(x));
    ConfigurationKeyUnique();
  }

  /** Lower-casing neither adds nor removes a dot. */
  lemma LowerKeepsInnerDots(x: string)
    requires x == [] || '.' !in x[1..]
    ensures ToLower(x) == [] || '.' !in ToLower(x)[1..]
  {
    ToLowerAt(x);
  }

  /** A text with no dot after its first character is not ".config.js". */
  lemma NotConfigurationKey(e: string)
    requires e == [] || '.' !in e[1..]
    ensures e != ".config.js"
  {
    assert ".config.js"[1..][6] == '.';
  }

  lemma ConfigurationKeyUnique()
    ensures forall k :: k in LangMap && LangMap[k] == "Configuration" ==> k == ".config.js"
  {
  }

  /** Upper- and lower-case extensions classify alike (outside exact file names). */
  lemma ExtensionCaseInsensitive(f: string, g: string)
    requires Basename(f) !in LangMap && Basename(g) !in LangMap
    requires ToLower(Extname(f)) == ToLower(Extname(g))
    ensures DetectLanguage(f) == DetectLanguage(g)
  {
  }

  // ---------------------------------------------------------------------
  // The same lookup as the source writes it: a plain object also answers
  // for the names it inherits from Object.prototype (Common.ObjectLookup).
  // ---------------------------------------------------------------------

  /** `detectLanguage` as written: `langMap[basename]` also hits inherited members. */
  function DetectLanguageAsWritten(filename: string): (v: LookupValue)
    ensures v.Text? ==> v.s == UnknownLanguage || v.s in LangMap.Values
    ensures v.Inherited? ==> v.key == Basename(filename)
  {
    match ObjectLookup(LangMap, Basename(filename))
    case Some(v) => v
    case None =>
      var x := Extname(filename);
      assert x == [] || ToLower(x)[0] == LowerChar(x[0]) == '.';
      DottedNotInherited(ToLower(x));
      match ObjectLookup(LangMap, ToLower(x))
      case Some(v) => v
      case None => Text(UnknownLanguage)
  }

  /** A file named "constructor" has that basename and no extension. */
  lemma ConstructorSegments(dir: string)
    ensures Basename(dir + "/constructor") == "constructor"
    ensures Extname(dir + "/constructor") == ""
  {
    var b := "constructor";
    BasenameOfJoined(dir, b);
    assert dir + "/" + b == dir + "/constructor";
    assert forall i :: 0 <= i < |b| ==> b[i] != '.';
    assert LastIndexOf(b, '.') == None;
  }

  /** A file named "constructor" is classified as the inherited Object constructor, not a language. */
  lemma InheritedMemberMisclassified(dir: string)
    ensures DetectLanguageAsWritten(dir + "/constructor") == Inherited("constructor")
    ensures DetectLanguage(dir + "/constructor") == UnknownLanguage
  {
    ConstructorSegments(dir);
  }

  /** Outside the inherited names, the source's lookup and the model's agree. */
  lemma AsWrittenAgreesOffPrototype(filename: string)
    requires Basename(filename) !in ObjectPrototypeKeys
    ensures DetectLanguageAsWritten(filename) == Text(DetectLanguage(filename))
  {
    var x := Extname(filename);
    assert x == [] || ToLower(x)[0] == LowerChar(x[0]) == '.';
    DottedNotInherited(ToLower(x));
  }

  /** No inherited name is empty or starts with a dot, so no extension is one. */
  lemma DottedNotInherited(e: string)
    requires e == [] || e[0] == '.'
    ensures e !in ObjectPrototypeKeys
  {
  }

  /**
   * As written, the detection yields an inherited member exactly when the
   * basename is an inherited name (none of which is a table key); the
   * extension never is one.
   */
  lemma AsWrittenInheritedIff(filename: string)
    ensures DetectLanguageAsWritten(filename).Inherited?
            <==> Basename(filename) in ObjectPrototypeKeys && Basename(filename) !in LangMap
  {
    var x := Extname(filename);
    assert x == [] || ToLower(x)[0] == LowerChar(x[0]) == '.';
    DottedNotInherited(ToLower(x));
  }

  /** The language `analyzeWithGemini` works with in either program. */
  function DetectIn(p: Program, filename: string): (v: LookupValue)
    ensures v.Inherited? ==> p.AsWritten? && Basename(filename) in ObjectPrototypeKeys
    ensures p == Corrected || Basename(filename) !in ObjectPrototypeKeys ==> v == Text(DetectLanguage(filename))
  {
    AsWrittenInheritedIff(filename);
    if p == Corrected then Text(DetectLanguage(filename))
    else if Basename(filename) in ObjectPrototypeKeys then DetectLanguageAsWritten(filename)
    else AsWrittenAgreesOffPrototype(filename); DetectLanguageAsWritten(filename)
  }

  // ---------------------------------------------------------------------
  // getLanguageContext and getSpecificRequirements
  // ---------------------------------------------------------------------

  /** Hints about one language that the prompt lists. */
  datatype LanguageContext = LanguageContext(
    commonErrors: seq<string>,
    frameworks: seq<string>,
    modernFeatures: seq<string>)

  const Contexts: map<string, LanguageContext> := map[
    "JavaScript" := LanguageContext(
      ["undefined variables", "type coercion issues", "async/await misuse", "closure problems"],
      ["React", "Node.js", "Express"],
      ["ES6+ syntax", "modules", "destructuring", "arrow functions"]),
    "TypeScript" := LanguageContext(
      ["type mismatches", "interface violations", "generic type issues", "strict mode violations"],
      ["React", "Angular", "Node.js"],
      ["strict typing", "decorators", "enums", "utility types"]),
    "Java" := LanguageContext(
      ["null pointer exceptions", "type mismatches", "static context issues", "access modifiers"],
      ["Spring", "Hibernate", "Maven"],
      ["lambdas", "streams", "optional", "modules"]),
    "Python" := LanguageContext(
      ["indentation errors", "undefined variables", "type errors", "import issues"],
      ["Django", "Flask", "FastAPI"],
      ["type hints", "async/await", "dataclasses", "f-strings"]),
    "ESLint Config" := LanguageContext(
      ["version compatibility", "plugin conflicts", "rule conflicts", "parser issues"],
      ["ESLint v8", "ESLint v9", "TypeScript-ESLint"],
      ["flat config", "extends vs plugins", "overrides"])
  ]

  /** `getLanguageContext`: the language's own bucket, else the JavaScript one. */
  function GetLanguageContext(language: string): LanguageContext
  {
    if language in Contexts then Contexts[language] else Contexts["JavaScript"]
  }

  const Requirements: map<string, string> := map[
    "JavaScript" := "Focus on: variable declarations, async/await usage, modern ES6+ features, React patterns if applicable",
    "TypeScript" := "Focus on: type annotations, interface compliance, generic usage, strict mode compatibility",
    "Java" := "Focus on: static/non-static context, access modifiers, exception handling, object-oriented principles",
    "Python" := "Focus on: indentation, variable scope, import statements, PEP 8 compliance",
    "ESLint Config" := "Focus on: ESLint version compatibility, plugin configurations, rule conflicts, flat vs legacy config",
    "CSS" := "Focus on: selector specificity, responsive design, modern CSS features, browser compatibility",
    "HTML" := "Focus on: semantic markup, accessibility, modern HTML5 features, validation"
  ]

  const GenericRequirements: string := "Focus on: syntax correctness, logic flow, error handling, best practices"

  /** `getSpecificRequirements`: the language's own line, else the generic one. */
  function GetSpecificRequirements(language: string): string
  {
    if language in Requirements then Requirements[language] else GenericRequirements
  }

  /**
   * Every language `detectLanguage` can produce gets a context and a
   * requirement line; only JavaScript, Java and the ESLint config get a
   * context of their own, the rest share JavaScript's.
   */
  lemma DetectedLanguagesShareJavaScriptContext(filename: string)
    ensures var l := DetectLanguage(filename);
            l !in {"JavaScript", "Java", "ESLint Config"} ==> GetLanguageContext(l) == Contexts["JavaScript"]
  {
    DetectedIsTableValue(filename);
    TableHasNoTypeScriptOrPython();
    ContextKeys();
  }

  /**
   * A detected language gets its own requirement line only for
   * JavaScript, Java, the ESLint config, CSS and HTML: the TypeScript and
   * Python lines are never used for a detected language.
   */
  lemma DetectedLanguagesRequirements(filename: string)
    ensures var l := DetectLanguage(filename);
            GetSpecificRequirements(l)
            == if l in {"JavaScript", "Java", "ESLint Config", "CSS", "HTML"} then Requirements[l] else GenericRequirements
  {
    DetectedIsTableValue(filename);
    TableHasNoTypeScriptOrPython();
    RequirementKeys();
  }

  lemma RequirementKeys()
    ensures Requirements.Keys == {"JavaScript", "TypeScript", "Java", "Python", "ESLint Config", "CSS", "HTML"}
  {
  }

  /** What `detectLanguage` answers is a value of the table or "Unknown". */
  lemma DetectedIsTableValue(filename: string)
    ensures DetectLanguage(filename) in LangMap.Values || DetectLanguage(filename) == UnknownLanguage
  {
    var b := Basename(filename);
    var e := ToLower(Extname(filename));
    if b in LangMap {
      assert LangMap[b] in LangMap.Values;
    } else if e in LangMap {
      assert LangMap[e] in LangMap.Values;
    }
  }

  lemma TableHasNoTypeScriptOrPython()
    ensures "TypeScript" !in LangMap.Values && "Python" !in LangMap.Values
  {
  }

  lemma ContextKeys()
    ensures Contexts.Keys == {"JavaScript", "TypeScript", "Java", "Python", "ESLint Config"}
  {
  }
}
