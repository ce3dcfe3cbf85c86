/**
 * The dashboard's view of a repository's files: the language shown for a
 * path, the files that match the search text and the language filter, and
 * the sorted list of languages offered by the filter. A file is its path.
 */
module Files {
  import opened Common
  import opened Language

  /** The dashboard's own table from lower-case extension to language name. */
  const ExtensionLanguages: map<string, string> := map[
    "js" := "JavaScript", "jsx" := "JavaScript", "ts" := "TypeScript", "tsx" := "TypeScript",
    "py" := "Python", "java" := "Java", "cpp" := "C++", "c" := "C", "cs" := "C#",
    "php" := "PHP", "rb" := "Ruby", "go" := "Go", "rs" := "Rust",
    "html" := "HTML", "css" := "CSS", "vue" := "Vue", "svelte" := "Svelte",
    "scss" := "SCSS", "sass" := "Sass", "less" := "Less"
  ]

  /** `path.split('.').pop()`: the text after the last dot, or the whole path when it has none. */
  function LastSegment(path: string): (segment: string)
    ensures '.' !in segment
  {
    var parts := SplitOn(path, '.');
    parts[|parts| - 1]
  }

  /**
   * `getLanguage`: the table's name for the lower-cased last segment,
   * otherwise that segment in upper case. Only the table's own entries
   * are consulted (see GetLanguageAsWritten for what the source does
   * instead).
   */
  function GetLanguage(path: string): (language: string)
    ensures language in ExtensionLanguages.Values || language == ToUpper(ToLower(LastSegment(path)))
    ensures ToLower(LastSegment(path)) in ExtensionLanguages ==> language == ExtensionLanguages[ToLower(LastSegment(path))]
  {
    var ext := ToLower(LastSegment(path));
    if ext in ExtensionLanguages then ExtensionLanguages[ext] else ToUpper(ext)
  }

  /** Appending a dot and a dot-free text appends that text as one more piece. */
  lemma {:induction false} SplitAppend(s: string, ext: string)
    requires '.' !in ext
    ensures SplitOn(s + "." + ext, '.') == SplitOn(s, '.') + [ext]
    decreases |s|
  {
    if s == [] {
      assert s + "." + ext == ['.'] + ext;
      assert (['.'] + ext)[1..] == ext;
      SplitNoSeparator(ext);
    } else {
      SplitAppend(s[1..], ext);
      assert (s + "." + ext)[1..] == s[1..] + "." + ext;
    }
  }

  /** A text without the separator splits into itself alone. */
  lemma {:induction false} SplitNoSeparator(s: string)
    requires '.' !in s
    ensures SplitOn(s, '.') == [s]
    decreases |s|
  {
    if s != [] {
      assert s[0] in s;
      SplitNoSeparator(s[1..]);
      assert [s[0]] + s[1..] == s;
    }
  }

  /** The last segment of a path ending in a dot and a dot-free extension is that extension. */
  lemma LastSegmentOfExtension(stem: string, ext: string)
    requires '.' !in ext
    ensures LastSegment(stem + "." + ext) == ext
  {
    SplitAppend(stem, ext);
  }

  /**
   * The language of a path depends only on its extension, letters
   * compared without regard to case.
   */
  lemma GetLanguageByExtension(stem: string, ext: string)
    requires '.' !in ext
    ensures ToLower(ext) in ExtensionLanguages ==> GetLanguage(stem + "." + ext) == ExtensionLanguages[ToLower(ext)]
    ensures ToLower(ext) !in ExtensionLanguages ==> GetLanguage(stem + "." + ext) == ToUpper(ToLower(ext))
  {
    LastSegmentOfExtension(stem, ext);
  }

  /** `getLanguage` as written: `langMap[ext]` also hits the members a plain object inherits. */
  function GetLanguageAsWritten(path: string): (v: LookupValue)
    ensures v.Inherited? <==> ToLower(LastSegment(path)) in ObjectPrototypeKeys
    ensures v.Text? ==> v.s == GetLanguage(path)
  {
    var ext := ToLower(LastSegment(path));
    ExtensionNotInherited(ext);
    match ObjectLookup(ExtensionLanguages, ext)
    case Some(v) => v
    case None => Text(ToUpper(ext))
  }

  /** A file with the extension "constructor" gets the inherited Object constructor as its language. */
  lemma InheritedExtensionMisclassified(stem: string)
    ensures GetLanguageAsWritten(stem + "." + "constructor") == Inherited("constructor")
    ensures GetLanguage(stem + "." + "constructor") == ToUpper("constructor")
  {
    var ext := "constructor";
    assert '.' !in ext;
    LastSegmentOfExtension(stem, ext);
    ConstructorIsPlain();
    InheritedLookup(stem + "." + ext, ext);
  }

  /** A path whose lower-cased extension is inherited but not in the table. */
  lemma InheritedLookup(path: string, ext: string)
    requires ToLower(LastSegment(path)) == ext && ext !in ExtensionLanguages && ext in ObjectPrototypeKeys
    ensures GetLanguageAsWritten(path) == Inherited(ext)
    ensures GetLanguage(path) == ToUpper(ext)
  {
  }

  /** "constructor" is lower case already, is no extension of the table and is an inherited name. */
  lemma ConstructorIsPlain()
    ensures ToLower("constructor") == "constructor"
    ensures "constructor" !in ExtensionLanguages
    ensures "constructor" in ObjectPrototypeKeys
  {
    ConstructorIsLowerCase();
    ExtensionsAreShort();
  }

  lemma ConstructorIsLowerCase()
    ensures ToLower("constructor") == "constructor"
  {
    var s := "constructor";
    assert forall i :: 0 <= i < |s| ==> 'a' <= s[i] <= 'z';
    NoUpperIsLower(s);
  }

  /** Every extension of the table has at most six characters. */
  lemma ExtensionsAreShort()
    ensures forall k :: k in ExtensionLanguages ==> |k| <= 6
  {
  }

  /** Every inherited name has at least seven characters, so none is an extension of the table. */
  lemma PrototypeKeysAreLong()
    ensures forall k :: k in ObjectPrototypeKeys ==> |k| >= 7
  {
  }

  /** No extension of the table is an inherited name. */
  lemma ExtensionNotInherited(ext: string)
    ensures ext in ExtensionLanguages ==> ext !in ObjectPrototypeKeys
  {
    if ext in ExtensionLanguages {
      ExtensionsAreShort();
      PrototypeKeysAreLong();
    }
  }

  /** Outside the inherited names, the source's lookup and the model's agree. */
  lemma AsWrittenAgreesOffPrototype(path: string)
    requires ToLower(LastSegment(path)) !in ObjectPrototypeKeys
    ensures GetLanguageAsWritten(path) == Text(GetLanguage(path))
  {
  }

  // ---------------------------------------------------------------------
  // getFilteredFiles
  // ---------------------------------------------------------------------

  /** The search text occurs in the path and the language matches the filter, letters compared in lower case. */
  predicate Matches(path: string, fileFilter: string, languageFilter: string)
  {
    Contains(ToLower(path), ToLower(fileFilter))
    && (languageFilter == "all" || ToLower(GetLanguage(path)) == ToLower(languageFilter))
  }

  /** `getFilteredFiles`: the matching files, in their original order. */
  function GetFilteredFiles(files: seq<string>, fileFilter: string, languageFilter: string): (r: seq<string>)
    ensures |r| <= |files|
    ensures forall p :: p in r <==> p in files && Matches(p, fileFilter, languageFilter)
  {
    if files == [] then []
    else
      var rest := GetFilteredFiles(files[1..], fileFilter, languageFilter);
      if Matches(files[0], fileFilter, languageFilter) then [files[0]] + rest else rest
  }

  /** An empty search and the "all" filter keep every file, in order. */
  lemma {:induction false} NoFilterKeepsAll(files: seq<string>)
    ensures GetFilteredFiles(files, "", "all") == files
  {
    if files != [] {
      NoFilterKeepsAll(files[1..]);
      assert IsPrefix(ToLower(""), ToLower(files[0]));
    }
  }

  /**
   * One file's test as written: `None` when the language filter is set
   * and the file's language is an inherited member, whose missing
   * `toLowerCase` throws.
   */
  function MatchesAsWritten(path: string, fileFilter: string, languageFilter: string): (r: Option<bool>)
    ensures r.None? <==> languageFilter != "all" && GetLanguageAsWritten(path).Inherited?
    ensures r.Some? ==> r.value == Matches(path, fileFilter, languageFilter)
  {
    var matchesSearch := Contains(ToLower(path), ToLower(fileFilter));
    if languageFilter == "all" then Some(matchesSearch)
    else
      match GetLanguageAsWritten(path)
      case Inherited(_) => None
      case Text(language) => Some(matchesSearch && ToLower(language) == ToLower(languageFilter))
  }

  /** `getFilteredFiles` as written: `None` when the `filter` callback throws. */
  function GetFilteredFilesAsWritten(files: seq<string>, fileFilter: string, languageFilter: string): Option<seq<string>>
  {
    if files == [] then Some([])
    else
      match MatchesAsWritten(files[0], fileFilter, languageFilter)
      case None => None
      case Some(keep) =>
        match GetFilteredFilesAsWritten(files[1..], fileFilter, languageFilter)
        case None => None
        case Some(rest) => Some(if keep then [files[0]] + rest else rest)
  }

  /**
   * As written, filtering throws exactly when a language filter is set and
   * some file's extension is an inherited name; otherwise it keeps the
   * files the corrected filter keeps.
   */
  lemma {:induction false} FilterAsWrittenIff(files: seq<string>, fileFilter: string, languageFilter: string)
    ensures GetFilteredFilesAsWritten(files, fileFilter, languageFilter).None? <==>
              languageFilter != "all" && exists i :: 0 <= i < |files| && GetLanguageAsWritten(files[i]).Inherited?
    ensures GetFilteredFilesAsWritten(files, fileFilter, languageFilter).Some? ==>
              GetFilteredFilesAsWritten(files, fileFilter, languageFilter).value == GetFilteredFiles(files, fileFilter, languageFilter)
    decreases |files|
  {
    if files != [] {
      FilterAsWrittenIff(files[1..], fileFilter, languageFilter);
      if languageFilter != "all" && !GetLanguageAsWritten(files[0]).Inherited? {
        if exists i :: 0 <= i < |files| && GetLanguageAsWritten(files[i]).Inherited? {
          var i :| 0 <= i < |files| && GetLanguageAsWritten(files[i]).Inherited?;
          assert files[1..][i - 1] == files[i];
        }
      }
    }
  }

  /** A ".constructor" file breaks the language filter as written, while the corrected filter drops it. */
  lemma ConstructorFileBreaksFilter(stem: string, languageFilter: string)
    requires languageFilter != "all" && ToLower(languageFilter) != "constructor"
    ensures GetFilteredFilesAsWritten([stem + "." + "constructor"], "", languageFilter).None?
    ensures GetFilteredFiles([stem + "." + "constructor"], "", languageFilter) == []
  {
    var path := stem + "." + "constructor";
    InheritedExtensionMisclassified(stem);
    assert MatchesAsWritten(path, "", languageFilter).None?;
    var language := GetLanguage(path);
    assert language == ToUpper("constructor");
    LowerOfUpper("constructor");
    ConstructorIsLowerCase();
    assert ToLower(language) == "constructor";
    assert !Matches(path, "", languageFilter);
    FilterOne(path, "", languageFilter);
  }

  /** Filtering a single file keeps it exactly when it matches; as written, it throws when its test does. */
  lemma FilterOne(path: string, fileFilter: string, languageFilter: string)
    ensures GetFilteredFiles([path], fileFilter, languageFilter) == (if Matches(path, fileFilter, languageFilter) then [path] else [])
    ensures GetFilteredFilesAsWritten([path], fileFilter, languageFilter).None?
            <==> MatchesAsWritten(path, fileFilter, languageFilter).None?
  {
    assert [path][1..] == [];
  }

  /** Filtering the filtered files again changes nothing. */
  lemma {:induction false} FilterIdempotent(files: seq<string>, fileFilter: string, languageFilter: string)
    ensures var r := GetFilteredFiles(files, fileFilter, languageFilter);
            GetFilteredFiles(r, fileFilter, languageFilter) == r
  {
    if files != [] {
      FilterIdempotent(files[1..], fileFilter, languageFilter);
    }
  }

  // ---------------------------------------------------------------------
  // getLanguages
  // ---------------------------------------------------------------------

  /** Every element is below the next, in string order; so no element repeats. */
  predicate StrictlySorted(s: seq<string>)
  {
    forall i, j :: 0 <= i < j < |s| ==> LexLess(s[i], s[j])
  }

  /** Adding one name to a sorted list without repeats: its place in order, or nowhere if present. */
  function InsertName(s: seq<string>, x: string): (r: seq<string>)
    requires StrictlySorted(s)
    ensures StrictlySorted(r)
    ensures forall y :: y in r <==> y in s || y == x
  {
    if s == [] then [x]
    else if x == s[0] then s
    else if LexLess(x, s[0]) then
      assert forall j :: 0 < j < |s| ==> LexLess(x, s[j]) by {
        forall j | 0 < j < |s| {
          LexLessTransitive(x, s[0], s[j]);
        }
      }
      [x] + s
    else
      LexLessTotal(x, s[0]);
      var rest := InsertName(s[1..], x);
      assert forall j :: 0 <= j < |rest| ==> LexLess(s[0], rest[j]) by {
        forall j | 0 <= j < |rest|
          ensures LexLess(s[0], rest[j])
        {
          assert rest[j] in rest;
          if rest[j] != x {
            var k :| 0 <= k < |s[1..]| && s[1..][k] == rest[j];
            assert s[k + 1] == rest[j];
          }
        }
      }
      [s[0]] + rest
  }

  /**
   * `getLanguages`: `Array.from(new Set(files.map(getLanguage))).sort()`,
   * the distinct languages in string order.
   */
  function GetLanguages(files: seq<string>): (r: seq<string>)
    ensures StrictlySorted(r)
    ensures forall l :: l in r <==> exists p :: p in files && GetLanguage(p) == l
  {
    if files == [] then []
    else
      var rest := GetLanguages(files[..|files| - 1]);
      var last := files[|files| - 1];
      assert forall p :: p in files <==> p in files[..|files| - 1] || p == last by {
        assert files == files[..|files| - 1] + [last];
      }
      InsertName(rest, GetLanguage(last))
  }

  /** The head of a sorted list is below every other element of it. */
  lemma SortedHeadIsLeast(a: seq<string>, x: string)
    requires StrictlySorted(a) && x in a
    ensures x == a[0] || LexLess(a[0], x)
  {
    var k :| 0 <= k < |a| && a[k] == x;
  }

  /** A list sorted without repeats is fixed by its elements: the order of insertion does not matter. */
  lemma {:induction false} StrictlySortedUnique(a: seq<string>, b: seq<string>)
    requires StrictlySorted(a) && StrictlySorted(b)
    requires forall x :: x in a <==> x in b
    ensures a == b
    decreases |a|
  {
    assert a != [] ==> a[0] in a;
    assert b != [] ==> b[0] in b;
    if a != [] {
      SortedHeadIsLeast(a, b[0]);
      SortedHeadIsLeast(b, a[0]);
      LexLessAsymmetric(a[0], b[0]);
      LexLessIrreflexive(a[0]);
      forall x
        ensures x in a[1..] <==> x in b[1..]
      {
        if x in a[1..] {
          var k :| 0 <= k < |a[1..]| && a[1..][k] == x;
          assert a[k + 1] == x;
          assert x in b;
          var m :| 0 <= m < |b| && b[m] == x;
          assert b[1..][m - 1] == x;
        }
        if x in b[1..] {
          var k :| 0 <= k < |b[1..]| && b[1..][k] == x;
          assert b[k + 1] == x;
          assert x in a;
          var m :| 0 <= m < |a| && a[m] == x;
          assert a[1..][m - 1] == x;
        }
      }
      StrictlySortedUnique(a[1..], b[1..]);
      assert a == [a[0]] + a[1..] && b == [b[0]] + b[1..];
    }
  }
}
