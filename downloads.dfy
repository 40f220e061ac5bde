/**
  The file-name tables of the application's download buttons: the syntax
  language and the MIME type of a file from its extension, and the
  extension of the single file the generated code is saved as.
 */
module Downloads {
  import opened Outcomes
  import opened Text

  /** The extension of a file name: the text after its last '.', lower-cased, or "" without a '.'. */
  function Extension(filename: string): (ext: string)
    ensures '.' !in filename ==> ext == ""
    ensures '.' in filename ==> '.' !in ext && exists i | 0 <= i < |filename| :: filename[i] == '.' && ext == Lower(filename[i + 1..])
  {
    var lower := Lower(filename);
    DotsKept(filename);
    match LastIndexOf(lower, '.')
    case None => ""
    case Some(j) =>
      assert filename[j] == '.';
      assert lower[j + 1..] == Lower(filename[j + 1..]);
      lower[j + 1..]
  }

  /** Lower-casing keeps every '.' where it is and adds none. */
  lemma DotsKept(s: string)
    ensures forall i | 0 <= i < |s| :: Lower(s)[i] == '.' <==> s[i] == '.'
    ensures '.' in Lower(s) <==> '.' in s
  {
    if '.' in Lower(s) {
      var i :| 0 <= i < |s| && Lower(s)[i] == '.';
      assert s[i] == '.';
    }
    if '.' in s {
      var i :| 0 <= i < |s| && s[i] == '.';
      assert Lower(s)[i] == '.';
    }
  }

  /** The position that holds c with no c after it is the last index of c. */
  lemma LastIndexOfUnique(s: string, c: char, r: nat)
    requires r < |s| && s[r] == c && c !in s[r + 1..]
    ensures LastIndexOf(s, c) == Some(r)
  {
    var l := LastIndexOf(s, c);
    assert s[r] == c;
  }

  /**
    `s.split(c)[-1]` is the text after the last c when s holds one: the
    extension as the source computes it is the one above.
   */
  lemma {:induction false} LastPiece(s: string, c: char)
    requires c in s
    ensures Last(Split(s, c)) == s[LastIndexOf(s, c).value + 1..]
    decreases |s|
  {
    var i := IndexOf(s, c).value;
    var rest := s[i + 1..];
    LastOfSplit(s, c, i);
    if c in rest {
      LastPiece(rest, c);
      LastAfterFirst(s, c, i);
    } else {
      assert Split(rest, c) == [rest];
      LastIndexOfUnique(s, c, i);
    }
  }

  /** The last element of a non-empty list: `xs[-1]`. */
  function Last<T>(xs: seq<T>): T
    requires |xs| > 0
  {
    xs[|xs| - 1]
  }

  /** The last piece of a split is the last piece of the split of what follows the first c. */
  lemma LastOfSplit(s: string, c: char, i: nat)
    requires IndexOf(s, c) == Some(i)
    ensures Last(Split(s, c)) == Last(Split(s[i + 1..], c))
  {
    SplitStep(s, c, i);
    var tail := Split(s[i + 1..], c);
    assert ([s[..i]] + tail)[|tail|] == tail[|tail| - 1];
  }

  /** Split at the first c: the text before it, then the pieces of what follows it. */
  lemma SplitStep(s: string, c: char, i: nat)
    requires IndexOf(s, c) == Some(i)
    ensures Split(s, c) == [s[..i]] + Split(s[i + 1..], c)
  {
  }

  /** The last c of s is the last c of what follows an earlier c, shifted past it. */
  lemma LastAfterFirst(s: string, c: char, i: nat)
    requires i < |s| && c in s[i + 1..]
    ensures LastIndexOf(s, c).value == i + 1 + LastIndexOf(s[i + 1..], c).value
    ensures s[LastIndexOf(s, c).value + 1..] == s[i + 1..][LastIndexOf(s[i + 1..], c).value + 1..]
  {
    var rest := s[i + 1..];
    var j := LastIndexOf(rest, c).value;
    assert s[i + 1 + j] == c;
    assert s[i + 1 + j + 1..] == rest[j + 1..];
    LastIndexOfUnique(s, c, i + 1 + j);
  }

  /** `language_map`: extension to syntax-highlighting language. */
  const LanguageMap: map<string, string> := map[
    "py" := "python", "js" := "javascript", "jsx" := "javascript", "ts" := "typescript",
    "tsx" := "typescript", "java" := "java", "cpp" := "cpp", "cc" := "cpp", "cxx" := "cpp",
    "c" := "c", "cs" := "csharp", "go" := "go", "rs" := "rust", "rb" := "ruby", "php" := "php",
    "swift" := "swift", "kt" := "kotlin", "html" := "html", "css" := "css", "json" := "json",
    "xml" := "xml", "sql" := "sql", "sh" := "bash", "bash" := "bash"
  ]

  /** `mime_map`: extension to MIME type; it has no entry for "jsx". */
  const MimeMap: map<string, string> := map[
    "py" := "text/x-python", "js" := "text/javascript", "ts" := "text/typescript",
    "tsx" := "text/typescript", "java" := "text/x-java", "cpp" := "text/x-c++", "cc" := "text/x-c++",
    "cxx" := "text/x-c++", "c" := "text/x-c", "cs" := "text/x-csharp", "go" := "text/x-go",
    "rs" := "text/x-rust", "rb" := "text/x-ruby", "php" := "text/x-php", "swift" := "text/x-swift",
    "kt" := "text/x-kotlin", "html" := "text/html", "css" := "text/css", "json" := "application/json",
    "xml" := "application/xml", "sql" := "text/x-sql", "sh" := "text/x-shellscript",
    "bash" := "text/x-shellscript"
  ]

  /** `_get_language_from_filename`: the language of the extension, "python" for any other. */
  function LanguageOf(filename: string): (lang: string)
    ensures Extension(filename) !in LanguageMap ==> lang == "python"
    ensures Extension(filename) in LanguageMap ==> lang == LanguageMap[Extension(filename)]
  {
    var ext := Extension(filename);
    if ext in LanguageMap then LanguageMap[ext] else "python"
  }

  /** `_get_mime_type_from_filename`: the MIME type of the extension, "text/plain" for any other. */
  function MimeTypeOf(filename: string): (mime: string)
    ensures Extension(filename) !in MimeMap ==> mime == "text/plain"
    ensures Extension(filename) in MimeMap ==> mime == MimeMap[Extension(filename)]
  {
    var ext := Extension(filename);
    if ext in MimeMap then MimeMap[ext] else "text/plain"
  }

  /** The MIME table knows every extension the language table knows, except "jsx". */
  lemma MimeKeys()
    ensures MimeMap.Keys == LanguageMap.Keys - {"jsx"}
  {
  }

  /** A name without a '.' is python source served as text/plain. */
  lemma NoDotDefaults(filename: string)
    requires '.' !in filename
    ensures LanguageOf(filename) == "python" && MimeTypeOf(filename) == "text/plain"
  {
    assert "" !in LanguageMap && "" !in MimeMap;
  }

  /** A ".jsx" file is highlighted as JavaScript but served as text/plain. */
  lemma JsxHasNoMime(filename: string)
    requires Extension(filename) == "jsx"
    ensures LanguageOf(filename) == "javascript" && MimeTypeOf(filename) == "text/plain"
  {
    MimeKeys();
    assert "jsx" !in MimeMap.Keys;
    assert LanguageMap["jsx"] == "javascript";
  }

  /** An extension neither table knows gives python and text/plain. */
  lemma UnknownExtension(filename: string)
    requires Extension(filename) !in LanguageMap
    ensures LanguageOf(filename) == "python" && MimeTypeOf(filename) == "text/plain"
  {
    MimeKeys();
  }

  /** The lookups ignore the case of the name. */
  lemma CaseIgnored(filename: string)
    ensures Extension(Lower(filename)) == Extension(filename)
    ensures LanguageOf(Lower(filename)) == LanguageOf(filename)
    ensures MimeTypeOf(Lower(filename)) == MimeTypeOf(filename)
  {
    LowerIsLowerCase(filename);
    ExtensionIsAfterLastDot(filename);
    ExtensionIsAfterLastDot(Lower(filename));
    SameExtension(Lower(filename), filename);
  }

  /** `split('.')[-1]` of a lower-cased name that holds a '.'. */
  function AfterLastDot(lower: string): string {
    match LastIndexOf(lower, '.')
    case None => ""
    case Some(j) => lower[j + 1..]
  }

  lemma ExtensionIsAfterLastDot(filename: string)
    ensures Extension(filename) == AfterLastDot(Lower(filename))
  {
  }

  /** Names with the same extension get the same language and MIME type. */
  lemma SameExtension(a: string, b: string)
    requires Extension(a) == Extension(b)
    ensures LanguageOf(a) == LanguageOf(b) && MimeTypeOf(a) == MimeTypeOf(b)
  {
  }

  /** `ext_map`: language to the extension of the single file the code is saved as. */
  const ExtensionMap: map<string, string> := map[
    "python" := "py", "javascript" := "js", "react" := "jsx", "typescript" := "ts", "java" := "java",
    "cpp" := "cpp", "c" := "c", "csharp" := "cs", "go" := "go", "rust" := "rs", "ruby" := "rb",
    "php" := "php", "swift" := "swift", "kotlin" := "kt"
  ]

  /** `ext_map.get(language.lower(), "py")` */
  function ExtensionFor(language: string): (ext: string)
    ensures Lower(language) !in ExtensionMap ==> ext == "py"
    ensures Lower(language) in ExtensionMap ==> ext == ExtensionMap[Lower(language)]
  {
    if Lower(language) in ExtensionMap then ExtensionMap[Lower(language)] else "py"
  }

  const Stem: string := "generated_code"

  /**
    `f"generated_code.{ext}"`: the stem, a dot, and the language's saved
    extension, which is what the name's extension reads back as.
   */
  function DefaultFileName(language: string): (name: string)
    ensures StartsWith(name, Stem + ".")
    ensures Extension(name) == ExtensionFor(language)
  {
    var ext := ExtensionFor(language);
    SavedExtensionsPlain();
    assert '.' !in ext && IsLowerCase(ext);
    ExtensionAfterDot(Stem, ext);
    LowerOfLowerCase(ext);
    assert (Stem + "." + ext)[..|Stem| + 1] == Stem + ".";
    Stem + "." + ext
  }

  /** The extension of a name ending in "." and a dot-free text is that text, lower-cased. */
  lemma {:induction false} ExtensionAfterDot(stem: string, ext: string)
    requires '.' !in ext
    ensures Extension(stem + "." + ext) == Lower(ext)
  {
    var name := stem + "." + ext;
    var lower := Lower(name);
    DotsKept(name);
    assert name[|stem|] == '.';
    assert name[|stem| + 1..] == ext;
    assert lower[|stem| + 1..] == Lower(ext);
    assert '.' !in lower[|stem| + 1..] by {
      DotsKept(ext);
    }
    LastIndexOfUnique(lower, '.', |stem|);
  }

  /**
    The default file's name reads back as its language: the extension the
    language is saved under maps back to that language, except React,
    whose ".jsx" reads back as JavaScript.
   */
  lemma DefaultNameRoundTrip(language: string)
    requires Lower(language) in ExtensionMap
    ensures Lower(language) != "react" ==> LanguageOf(DefaultFileName(language)) == Lower(language)
    ensures Lower(language) == "react" ==> LanguageOf(DefaultFileName(language)) == "javascript"
  {
    var ext := ExtensionFor(language);
    TablesAgree();
    SavedExtensionsPlain();
    assert '.' !in ext && IsLowerCase(ext);
    ExtensionAfterDot(Stem, ext);
    LowerOfLowerCase(ext);
  }

  /** Every saved extension is lower-case without a '.'. */
  lemma SavedExtensionsPlain()
    ensures forall l | l in ExtensionMap :: '.' !in ExtensionMap[l] && IsLowerCase(ExtensionMap[l])
  {
  }

  /** Each saved extension but React's maps back to its language; React's maps to JavaScript. */
  lemma TablesAgree()
    ensures forall l | l in ExtensionMap && l != "react" :: ExtensionMap[l] in LanguageMap && LanguageMap[ExtensionMap[l]] == l
    ensures LanguageMap[ExtensionMap["react"]] == "javascript"
  {
    forall l | l in ExtensionMap && l != "react"
      ensures ExtensionMap[l] in LanguageMap && LanguageMap[ExtensionMap[l]] == l
    {
      if l in {"python", "javascript", "typescript", "java"} {
        FrontAgrees(l);
      } else if l in {"cpp", "c", "csharp"} {
        MiddleAgrees(l);
      } else {
        BackAgrees(l);
      }
    }
  }

  lemma FrontAgrees(l: string)
    requires l in {"python", "javascript", "typescript", "java"}
    ensures l in ExtensionMap && ExtensionMap[l] in LanguageMap && LanguageMap[ExtensionMap[l]] == l
  {
  }

  lemma MiddleAgrees(l: string)
    requires l in {"cpp", "c", "csharp"}
    ensures l in ExtensionMap && ExtensionMap[l] in LanguageMap && LanguageMap[ExtensionMap[l]] == l
  {
  }

  lemma BackAgrees(l: string)
    requires l in {"go", "rust", "ruby", "php", "swift", "kotlin"}
    ensures l in ExtensionMap && ExtensionMap[l] in LanguageMap && LanguageMap[ExtensionMap[l]] == l
  {
  }
}
