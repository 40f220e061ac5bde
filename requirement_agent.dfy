/**
  The requirement-analysis agent: a local ambiguity score, the follow-up
  context it quotes to the model, the shared retry loop, the JSON span it
  cuts out of the reply (or the fallback record when there is none or it
  does not decode), the normalisation of the clarifying questions and the
  choice of the programming language.

  json.loads is abstract: `decode` maps the candidate span to the decoded
  object, or to None when it raises JSONDecodeError.
 */
module RequirementAgent {
  import opened Outcomes
  import opened Text
  import opened WordPatterns
  import opened Invoker
  import opened Records

  // ---------------------------------------------------------------------
  // Ambiguity score
  // ---------------------------------------------------------------------

  /** The seven vague-term groups, each one alternation between two \b. */
  const VagueTerms: seq<seq<Pattern>> := [
    [Word("user-friendly"), Word("user friendly")],
    [Word("fast"), Word("quick"), Word("quickly")],
    [Word("good"), Word("better"), Word("best")],
    [Word("easy"), Word("simple"), Word("easily")],
    [Word("nice"), Word("nice-looking"), Word("pretty")],
    [Word("some"), Word("various"), Word("multiple"), Word("several")],
    [Word("should"), Word("could"), Word("might"), Word("may")]
  ]

  /** The four groups whose absence counts as a missing specification. */
  const MissingPatterns: seq<seq<Pattern>> := [
    [Word("input"), Word("output")],
    [Word("error"), Word("exception"), Word("handle")],
    [Word("platform"), Word("os"), Word("operating system")],
    [Word("performance"), Word("speed"), Word("time")]
  ]

  /** The dictionary `_detect_ambiguity` returns. */
  datatype Ambiguity = Ambiguity(isAmbiguous: bool, vagueTerms: nat, missing: nat, inputLength: nat)

  /**
    The local ambiguity score: how many vague groups occur and how many of
    the specification groups do not, searched ignoring (ASCII) case.
   */
  function DetectAmbiguity(input: string): (a: Ambiguity)
    ensures a.vagueTerms <= |VagueTerms| == 7 && a.missing <= |MissingPatterns| == 4
    ensures a.vagueTerms == |set k: nat | k < 7 && MatchesAny(Lower(input), VagueTerms[k])|
    ensures a.missing == |set k: nat | k < 4 && !MatchesAny(Lower(input), MissingPatterns[k])|
    ensures a.isAmbiguous <==> a.vagueTerms > 2 || a.missing > 2 || |Strip(input)| < 50
    ensures a.vagueTerms == 0 <==> forall k | 0 <= k < 7 :: !MatchesAny(Lower(input), VagueTerms[k])
    ensures a.missing == 0 <==> forall k | 0 <= k < 4 :: MatchesAny(Lower(input), MissingPatterns[k])
    ensures a.missing == 4 <==> forall k | 0 <= k < 4 :: !MatchesAny(Lower(input), MissingPatterns[k])
    ensures a.inputLength == |input|
  {
    var s := Lower(input);
    var vague := CountMatching(s, VagueTerms);
    var missing := CountFailing(s, MissingPatterns);
    CountExtremes(s, VagueTerms);
    CountExtremes(s, MissingPatterns);
    Ambiguity(vague > 2 || missing > 2 || |Strip(input)| < 50, vague, missing, |input|)
  }

  /** Every input under 50 characters once stripped is ambiguous, whatever words it uses. */
  lemma ShortIsAmbiguous(input: string)
    requires |Strip(input)| < 50
    ensures DetectAmbiguity(input).isAmbiguous
  {
  }

  /** An input that mentions none of input/output, errors, platform or performance is ambiguous, however long. */
  lemma UnspecifiedIsAmbiguous(input: string)
    requires forall k | 0 <= k < 4 :: !MatchesAny(Lower(input), MissingPatterns[k])
    ensures DetectAmbiguity(input).isAmbiguous
  {
  }

  // ---------------------------------------------------------------------
  // Programming-language detection
  // ---------------------------------------------------------------------

  /** One entry of the language table: its name and its patterns. */
  datatype Language = Language(name: string, patterns: seq<Pattern>)

  const ReactEntry: Language :=
    Language("react", [Word("react"), Word("jsx"), Suffix(".jsx"), Suffix(".tsx"), Word("reactjs"),
                       Word("react.js"), Word("create-react-app"), Word("next.js"), Word("gatsby")])
  const TypeScriptEntry: Language := Language("typescript", [Word("typescript"), Word("ts"), Suffix(".ts"), Suffix(".tsx")])
  const JavaScriptEntry: Language :=
    Language("javascript", [Word("javascript"), Word("js"), Suffix(".js"), Word("npm"), Word("node.js"),
                            Word("nodejs"), Word("package.json"), Word("express")])
  const PythonEntry: Language :=
    Language("python", [Word("python"), Suffix(".py"), Word("pip"), Word("pyinstaller"), Word("django"),
                        Word("flask"), Word("pytest")])
  const JavaEntry: Language := Language("java", [Word("java"), Suffix(".java"), Word("maven"), Word("pom.xml"), Word("gradle"), Word("spring")])
  const GoEntry: Language := Language("go", [Word("go"), Word("golang"), Suffix(".go"), Word("go.mod")])
  const RustEntry: Language := Language("rust", [Word("rust"), Suffix(".rs"), Word("cargo")])
  const RubyEntry: Language := Language("ruby", [Word("ruby"), Suffix(".rb"), Word("gemfile"), Word("rails")])
  const PhpEntry: Language := Language("php", [Word("php"), Suffix(".php"), Word("composer")])
  const SwiftEntry: Language := Language("swift", [Word("swift"), Suffix(".swift")])
  const KotlinEntry: Language := Language("kotlin", [Word("kotlin"), Suffix(".kt")])

  /** The C++ entry, whose first pattern is the one for "c++" itself. */
  function CppEntry(cpp: Pattern): Language {
    Language("cpp", [cpp, Word("cpp"), Suffix(".cpp"), Suffix(".hpp"), Word("cmake")])
  }

  /** The C# entry, whose first pattern is the one for "c#" itself. */
  function CsharpEntry(csharp: Pattern): Language {
    Language("csharp", [csharp, Word("csharp"), Suffix(".cs"), Suffix(".net")])
  }

  /**
    The language table in the order it is searched: react, typescript and
    javascript first, then the others in the order they are listed.  The
    first C++ pattern and the first C# pattern are parameters, so that the
    table as written and the corrected table share everything else.
   */
  function LanguageTable(cpp: Pattern, csharp: Pattern): (table: seq<Language>)
    ensures |table| == 13
    ensures forall j | 0 <= j < |table| :: table[j].name != ""
  {
    [ReactEntry, TypeScriptEntry, JavaScriptEntry, PythonEntry, JavaEntry, CppEntry(cpp), CsharpEntry(csharp),
     GoEntry, RustEntry, RubyEntry, PhpEntry, SwiftEntry, KotlinEntry]
  }

  /** The table as written: `\bc\+\+\b` and `\bc#\b`. */
  const LanguagesAsWritten: seq<Language> := LanguageTable(Word("c++"), Word("c#"))

  /** The corrected table: "c++" and "c#" need a boundary before them only. */
  const Languages: seq<Language> := LanguageTable(Lead("c++"), Lead("c#"))

  /** The first entry from `from` on with a pattern that matches s. */
  function FirstMatching(table: seq<Language>, s: string, from: nat): (r: Option<nat>)
    ensures r.Some? ==> from <= r.value < |table| && MatchesAny(s, table[r.value].patterns)
    ensures r.Some? ==> forall j | from <= j < r.value :: !MatchesAny(s, table[j].patterns)
    ensures r.None? ==> forall j | from <= j < |table| :: !MatchesAny(s, table[j].patterns)
    decreases |table| - from
  {
    if from >= |table| then None
    else if MatchesAny(s, table[from].patterns) then Some(from)
    else FirstMatching(table, s, from + 1)
  }

  /** `_detect_programming_language` over a table: the first language with a match in the lower-cased input, else "python". */
  function DetectWith(table: seq<Language>, input: string): (lang: string)
  {
    match FirstMatching(table, Lower(input), 0)
    case None => "python"
    case Some(k) => table[k].name
  }

  /** `_detect_programming_language` as written, which `analyze` uses. */
  function DetectLanguageAsWritten(input: string): (lang: string)
    ensures lang != ""
  {
    DetectWith(LanguagesAsWritten, input)
  }

  /** `_detect_programming_language` with the C++ and C# patterns corrected. */
  function DetectLanguage(input: string): (lang: string)
    ensures lang != ""
  {
    DetectWith(Languages, input)
  }

  /**
    The language detected is the first in priority order with a matching
    pattern, and "python" only when no language matches or python itself is
    the first that does.
   */
  lemma DetectionOrder(table: seq<Language>, input: string)
    ensures var lang := DetectWith(table, input);
            (lang == "python" && forall j | 0 <= j < |table| :: !MatchesAny(Lower(input), table[j].patterns))
            || exists k | 0 <= k < |table| ::
                 && lang == table[k].name
                 && MatchesAny(Lower(input), table[k].patterns)
                 && forall j | 0 <= j < k :: !MatchesAny(Lower(input), table[j].patterns)
  {
    match FirstMatching(table, Lower(input), 0)
    case None =>
    case Some(k) =>
  }

  /** "c++" on its own, with no other hint of a language. */
  const CppOnly: string := "c++"

  /** As written, "c++" at the end of the text is not recognised: the input falls through to "python". */
  lemma CppMissedAsWritten()
    ensures DetectLanguageAsWritten(CppOnly) == "python"
  {
    var s := Lower(CppOnly);
    assert s == CppOnly;
    NothingBeforeCpp(LanguagesAsWritten, Word("c++"), Word("c#"));
    CppEntryMissesCpp();
    Unmatched(s, CsharpEntry(Word("c#")).patterns);
    CppSymbols();
    NothingAfterCsharp(LanguagesAsWritten, Word("c++"), Word("c#"), s);
    assert FirstMatching(LanguagesAsWritten, s, 0).None?;
  }

  /** `\bc\+\+\b` needs a word character after "c++", and the other C++ patterns are not in "c++" either. */
  lemma CppEntryMissesCpp()
    ensures !MatchesAny(CppOnly, CppEntry(Word("c++")).patterns)
  {
    var s := CppOnly;
    var cpp := CppEntry(Word("c++")).patterns;
    assert !Matches(s, cpp[0]) by {
      forall i | MatchesAt(s, cpp[0], i)
        ensures false
      {
        TrailAfterSymbol(s, "c++", i);
      }
    }
    forall m | 1 <= m < |cpp|
      ensures !Matches(s, cpp[m])
    {
      NoMatch(s, cpp[m]);
    }
  }

  /** With the corrected pattern, "c++" gives "cpp". */
  lemma CppFoundCorrected()
    ensures DetectLanguage(CppOnly) == "cpp"
  {
    var s := Lower(CppOnly);
    assert s == CppOnly;
    NothingBeforeCpp(Languages, Lead("c++"), Lead("c#"));
    assert MatchesAt(s, Languages[5].patterns[0], 0);
    assert Matches(s, Languages[5].patterns[0]);
  }

  /** "c#" on its own, with no other hint of a language. */
  const CsharpOnly: string := "c#"

  /** As written, "c#" at the end of the text is not recognised either: the input falls through to "python". */
  lemma CsharpMissedAsWritten()
    ensures DetectLanguageAsWritten(CsharpOnly) == "python"
  {
    var s := Lower(CsharpOnly);
    assert s == CsharpOnly;
    NothingBeforeCsharp(LanguagesAsWritten, Word("c++"), Word("c#"));
    CsharpEntryMissesCsharp();
    CsharpSymbols();
    NothingAfterCsharp(LanguagesAsWritten, Word("c++"), Word("c#"), s);
    assert FirstMatching(LanguagesAsWritten, s, 0).None?;
  }

  /** `\bc#\b` needs a word character after "c#", and the other C# patterns are not in "c#" either. */
  lemma CsharpEntryMissesCsharp()
    ensures !MatchesAny(CsharpOnly, CsharpEntry(Word("c#")).patterns)
  {
    var s := CsharpOnly;
    var cs := CsharpEntry(Word("c#")).patterns;
    assert !Matches(s, cs[0]) by {
      forall i | MatchesAt(s, cs[0], i)
        ensures false
      {
        TrailAfterSymbol(s, "c#", i);
      }
    }
    forall m | 1 <= m < |cs|
      ensures !Matches(s, cs[m])
    {
      NoMatch(s, cs[m]);
    }
  }

  /** With the corrected pattern, "c#" gives "csharp". */
  lemma CsharpFoundCorrected()
    ensures DetectLanguage(CsharpOnly) == "csharp"
  {
    var s := Lower(CsharpOnly);
    assert s == CsharpOnly;
    NothingBeforeCsharp(Languages, Lead("c++"), Lead("c#"));
    assert MatchesAt(s, Languages[6].patterns[0], 0);
    assert Matches(s, Languages[6].patterns[0]);
  }

  /** No language before C# in the table, C++ included, has a pattern in "c#". */
  lemma NothingBeforeCsharp(table: seq<Language>, cpp: Pattern, csharp: Pattern)
    requires table == LanguageTable(cpp, csharp) && cpp.text == "c++"
    ensures forall j | 0 <= j < 6 :: !MatchesAny(CsharpOnly, table[j].patterns)
  {
    CsharpSymbols();
    FrontLacksSymbols(CsharpOnly);
    MiddleLacksSymbols(CsharpOnly);
    Unmatched(CsharpOnly, CppEntry(cpp).patterns);
  }

  /** None of react, typescript, javascript, python and java has a pattern in "c++". */
  lemma NothingBeforeCpp(table: seq<Language>, cpp: Pattern, csharp: Pattern)
    requires table == LanguageTable(cpp, csharp)
    ensures forall j | 0 <= j < 5 :: !MatchesAny(CppOnly, table[j].patterns)
  {
    CppSymbols();
    FrontLacksSymbols(CppOnly);
    MiddleLacksSymbols(CppOnly);
  }

  /** None of the languages after C# has a pattern in a short text of 'c', '+' and '#'. */
  lemma NothingAfterCsharp(table: seq<Language>, cpp: Pattern, csharp: Pattern, s: string)
    requires table == LanguageTable(cpp, csharp) && CSymbols(s)
    ensures forall j | 7 <= j < 13 :: !MatchesAny(s, table[j].patterns)
  {
    BackLacksSymbols(s);
    LastLacksSymbols(s);
  }

  /** At most three characters, each of them 'c', '+' or '#'. */
  predicate CSymbols(s: string) {
    |s| <= 3 && forall k | 0 <= k < |s| :: s[k] in "c+#"
  }

  lemma CppSymbols()
    ensures CSymbols(CppOnly)
  {
  }

  lemma CsharpSymbols()
    ensures CSymbols(CsharpOnly)
  {
  }

  lemma FrontLacksSymbols(s: string)
    requires CSymbols(s)
    ensures !MatchesAny(s, ReactEntry.patterns)
    ensures !MatchesAny(s, TypeScriptEntry.patterns)
    ensures !MatchesAny(s, JavaScriptEntry.patterns)
  {
    Foreign(s, ReactEntry.patterns);
    Foreign(s, TypeScriptEntry.patterns);
    Foreign(s, JavaScriptEntry.patterns);
  }

  lemma MiddleLacksSymbols(s: string)
    requires CSymbols(s)
    ensures !MatchesAny(s, PythonEntry.patterns)
    ensures !MatchesAny(s, JavaEntry.patterns)
  {
    Foreign(s, PythonEntry.patterns);
    Foreign(s, JavaEntry.patterns);
  }

  lemma BackLacksSymbols(s: string)
    requires CSymbols(s)
    ensures !MatchesAny(s, GoEntry.patterns)
    ensures !MatchesAny(s, RustEntry.patterns)
    ensures !MatchesAny(s, RubyEntry.patterns)
  {
    Foreign(s, GoEntry.patterns);
    Foreign(s, RustEntry.patterns);
    Foreign(s, RubyEntry.patterns);
  }

  lemma LastLacksSymbols(s: string)
    requires CSymbols(s)
    ensures !MatchesAny(s, PhpEntry.patterns)
    ensures !MatchesAny(s, SwiftEntry.patterns)
    ensures !MatchesAny(s, KotlinEntry.patterns)
  {
    Foreign(s, PhpEntry.patterns);
    Foreign(s, SwiftEntry.patterns);
    Foreign(s, KotlinEntry.patterns);
  }

  /** Patterns longer than three characters or starting with none of 'c', '+' and '#' have no match in such a text. */
  lemma Foreign(s: string, ps: seq<Pattern>)
    requires CSymbols(s)
    requires forall m | 0 <= m < |ps| :: |ps[m].text| > 3 || (ps[m].text != [] && ps[m].text[0] !in "c+#")
    ensures !MatchesAny(s, ps)
  {
    forall m | 0 <= m < |ps|
      ensures !Matches(s, ps[m])
    {
      if |ps[m].text| <= |s| {
        assert ps[m].text[0] !in s;
      }
      NoMatch(s, ps[m]);
    }
  }

  /** A list of patterns each of which is longer than s or starts or continues with a character s lacks has no match in s. */
  lemma Unmatched(s: string, ps: seq<Pattern>)
    requires forall m | 0 <= m < |ps| ::
               |ps[m].text| > |s| || (ps[m].text != [] && ps[m].text[0] !in s) || (|ps[m].text| > 1 && ps[m].text[1] !in s)
    ensures !MatchesAny(s, ps)
  {
    forall m | 0 <= m < |ps|
      ensures !Matches(s, ps[m])
    {
      NoMatch(s, ps[m]);
    }
  }

  // ---------------------------------------------------------------------
  // The language of the result
  // ---------------------------------------------------------------------

  /** The words that upgrade "javascript" to "react" when the input holds one of them. */
  const ReactTerms: seq<string> := ["react", "jsx", "reactjs", "react.js"]

  /**
    The language before the React check: the model's tag lower-cased, or the
    language detected with the patterns as written when the tag is missing
    or empty.
   */
  function Tagged(tag: Option<string>, input: string): (lang: string)
    ensures lang != ""
    ensures Given(tag) ==> lang == Lower(tag.value)
    ensures !Given(tag) ==> lang == DetectLanguageAsWritten(input)
  {
    if Given(tag) then Lower(tag.value) else DetectLanguageAsWritten(input)
  }

  /**
    The final language: "javascript" becomes "react" when the lower-cased
    input mentions React; the result is lower-cased.
   */
  function FinalLanguage(tag: Option<string>, input: string): (lang: string)
    ensures lang != "" && IsLowerCase(lang)
    ensures Tagged(tag, input) != "javascript" ==> lang == Lower(Tagged(tag, input))
    ensures Tagged(tag, input) == "javascript" ==> lang == (if ContainsAny(Lower(input), ReactTerms) then "react" else "javascript")
  {
    var detected := Tagged(tag, input);
    var upgraded := if detected == "javascript" && ContainsAny(Lower(input), ReactTerms) then "react" else detected;
    LowerIsLowerCase(upgraded);
    LowerOfLowerCase("react");
    LowerOfLowerCase("javascript");
    if upgraded != "" then Lower(upgraded) else "python"
  }

  /** A present tag other than JavaScript is kept, lower-cased; lower-casing twice changes nothing. */
  lemma TagKept(tag: string, input: string)
    requires tag != "" && Lower(tag) != "javascript"
    ensures FinalLanguage(Some(tag), input) == Lower(tag)
  {
    LowerIsLowerCase(tag);
  }

  /** JavaScript, tagged or detected, becomes React exactly when the input mentions React. */
  lemma ReactUpgrade(tag: Option<string>, input: string)
    requires Tagged(tag, input) == "javascript"
    ensures FinalLanguage(tag, input) == "react" <==> ContainsAny(Lower(input), ReactTerms)
  {
  }

  /** Without a tag, an input that is just "c++" reaches the record as "python", as the detection as written gives. */
  lemma UntaggedCppIsPython()
    ensures FinalLanguage(None, CppOnly) == "python"
  {
    CppMissedAsWritten();
    assert Tagged(None, CppOnly) == "python";
    assert Lower("python") == "python";
  }

  /** `if x:` for an optional string: present and not empty. */
  predicate Given(s: Option<string>) {
    s.Some? && s.value != ""
  }

  // ---------------------------------------------------------------------
  // The JSON span and the fallback record
  // ---------------------------------------------------------------------

  /**
    `content[content.find("{"):content.rfind("}") + 1]`, used only when the
    last '}' comes after the first '{'.
   */
  function JsonSpan(content: string): (span: Option<string>)
    ensures span.Some? <==> exists i, j | 0 <= i < j < |content| :: content[i] == '{' && content[j] == '}'
    ensures span.Some? ==> |span.value| >= 2 && span.value[0] == '{' && span.value[|span.value| - 1] == '}'
    ensures span.Some? ==> exists a | 0 <= a <= |content| - |span.value| ::
                             && OccursAt(content, span.value, a)
                             && '{' !in content[..a] && '}' !in content[a + |span.value|..]
  {
    var first := IndexOf(content, '{');
    var last := LastIndexOf(content, '}');
    if first.Some? && last.Some? && last.value + 1 > first.value then
      var a, b := first.value, last.value;
      assert content[a] != content[b];
      Some(content[a..b + 1])
    else
      BraceOrder(content);
      None
  }

  /** Some '{' before some '}' puts the first '{' before the last '}'. */
  lemma BraceOrder(content: string)
    ensures (exists i, j | 0 <= i < j < |content| :: content[i] == '{' && content[j] == '}') ==>
              IndexOf(content, '{').Some? && LastIndexOf(content, '}').Some? &&
              IndexOf(content, '{').value < LastIndexOf(content, '}').value
  {
    if exists i, j | 0 <= i < j < |content| :: content[i] == '{' && content[j] == '}' {
      var i, j :| 0 <= i < j < |content| && content[i] == '{' && content[j] == '}';
      BraceBefore(content, i, j);
    }
  }

  /** A '{' before a '}' puts the first '{' before the last '}'. */
  lemma BraceBefore(content: string, i: int, j: int)
    requires 0 <= i < j < |content| && content[i] == '{' && content[j] == '}'
    ensures var first, last := IndexOf(content, '{'), LastIndexOf(content, '}');
            first.Some? && last.Some? && first.value <= i < j <= last.value
  {
  }

  /** One entry of the decoded "clarifying_questions" list. */
  datatype QuestionItem =
    | Question(question: Option<string>, assumption: Option<string>, code: Option<string>)  // an object
    | Plain(text: string)                                                                  // a string
    | Other                                                                                // anything else

  /**
    The decoded requirements object, one optional field per key it may hold
    (None when the key is missing).
   */
  datatype Parsed = Parsed(
    functional: Option<seq<string>>,
    nonFunctional: Option<seq<string>>,
    assumptions: Option<seq<string>>,
    constraints: Option<seq<string>>,
    language: Option<string>,
    questions: Option<seq<QuestionItem>>,
    ambiguityDetected: Option<bool>,
    notes: Option<string>)

  const FallbackNotes: string := "JSON parsing failed - requirements may be incomplete"

  /** `_parse_fallback`: the whole reply as the one functional requirement, with fixed assumptions and notes. */
  function Fallback(content: string): (p: Parsed)
    ensures p.functional == Some([content]) && p.language == Some("python") && p.ambiguityDetected == Some(true)
    ensures p.questions.Some? && |p.questions.value| == 1
  {
    Parsed(
      Some([content]),
      Some([]),
      Some(["Could not parse structured requirements - using raw input"]),
      Some([]),
      Some("python"),
      Some([Question(Some("Could not parse structured requirements"), Some("Using raw input as requirement"),
                     Some("# " + FallbackNotes))]),
      Some(true),
      Some(FallbackNotes))
  }

  /** The requirements object of a reply: the decoded span, or the fallback when there is no span or it does not decode. */
  function Decoded(content: string, decode: string -> Option<Parsed>): (p: Parsed)
    ensures JsonSpan(content).None? ==> p == Fallback(content)
    ensures JsonSpan(content).Some? && decode(JsonSpan(content).value).None? ==> p == Fallback(content)
    ensures JsonSpan(content).Some? && decode(JsonSpan(content).value).Some? ==> p == decode(JsonSpan(content).value).value
  {
    match JsonSpan(content)
    case None => Fallback(content)
    case Some(span) =>
      match decode(span)
      case None => Fallback(content)
      case Some(p) => p
  }

  // ---------------------------------------------------------------------
  // Clarifying questions
  // ---------------------------------------------------------------------

  function OrElse<T>(o: Option<T>, default: T): T {
    if o.Some? then o.value else default
  }

  const NoAssumption: string := "Assumption not specified"
  const NoCode: string := "# No code example provided"

  /** What one item becomes: an object its three fields, a string a question with the stock assumption and code, anything else nothing. */
  function Normalize(item: QuestionItem): (ts: seq<Triple>)
    ensures |ts| <= 1 && (|ts| == 0 <==> item.Other?)
    ensures item.Question? ==> ts == [Triple(OrElse(item.question, ""), OrElse(item.assumption, ""), OrElse(item.code, ""))]
    ensures item.Plain? ==> ts == [Triple(item.text, NoAssumption, NoCode)]
  {
    match item
    case Question(q, a, c) => [Triple(OrElse(q, ""), OrElse(a, ""), OrElse(c, ""))]
    case Plain(t) => [Triple(t, NoAssumption, NoCode)]
    case Other => []
  }

  /** The normalised question list. */
  function Normalized(items: seq<QuestionItem>): seq<Triple>
    decreases |items|
  {
    if items == [] then [] else Normalized(items[..|items| - 1]) + Normalize(items[|items| - 1])
  }

  /** The loop that normalises the questions, appending one triple per object or string. */
  method NormalizeQuestions(items: seq<QuestionItem>) returns (triples: seq<Triple>)
    ensures triples == Normalized(items)
  {
    triples := [];
    for k := 0 to |items|
      invariant triples == Normalized(items[..k])
    {
      assert items[..k + 1][..k] == items[..k];
      match items[k]
      case Question(q, a, c) =>
        triples := triples + [Triple(OrElse(q, ""), OrElse(a, ""), OrElse(c, ""))];
      case Plain(t) =>
        triples := triples + [Triple(t, NoAssumption, NoCode)];
      case Other =>
    }
    assert items[..|items|] == items;
  }

  /** Normalisation keeps the order: the list of a concatenation is the concatenation of the lists. */
  lemma {:induction false} NormalizedAppend(xs: seq<QuestionItem>, ys: seq<QuestionItem>)
    ensures Normalized(xs + ys) == Normalized(xs) + Normalized(ys)
    decreases |ys|
  {
    if ys == [] {
      assert xs + ys == xs;
    } else {
      var init, last := ys[..|ys| - 1], ys[|ys| - 1];
      assert (xs + ys)[..|xs + ys| - 1] == xs + init;
      assert (xs + ys)[|xs + ys| - 1] == last;
      var a, b, c := Normalized(xs), Normalized(init), Normalize(last);
      assert Normalized(xs + ys) == Normalized(xs + init) + c;
      NormalizedAppend(xs, init);
      assert Normalized(ys) == b + c;
      assert (a + b) + c == a + (b + c);
    }
  }

  /** The triples written back as objects with all three keys. */
  function AsItems(ts: seq<Triple>): (items: seq<QuestionItem>)
    ensures |items| == |ts|
    ensures forall k | 0 <= k < |ts| :: items[k] == Question(Some(ts[k].question), Some(ts[k].assumption), Some(ts[k].code))
  {
    seq(|ts|, k requires 0 <= k < |ts| => Question(Some(ts[k].question), Some(ts[k].assumption), Some(ts[k].code)))
  }

  /** Normalising already normalised questions gives them back unchanged. */
  lemma {:induction false} NormalizedIdempotent(ts: seq<Triple>)
    ensures Normalized(AsItems(ts)) == ts
    decreases |ts|
  {
    if ts != [] {
      var init := ts[..|ts| - 1];
      assert AsItems(ts)[..|ts| - 1] == AsItems(init);
      NormalizedIdempotent(init);
      assert ts == init + [ts[|ts| - 1]];
    }
  }

  /** Only items that are neither objects nor strings are dropped. */
  lemma {:induction false} NormalizedLength(items: seq<QuestionItem>)
    ensures |Normalized(items)| <= |items|
    ensures (forall k | 0 <= k < |items| :: !items[k].Other?) ==> |Normalized(items)| == |items|
    decreases |items|
  {
    if items != [] {
      var init := items[..|items| - 1];
      NormalizedLength(init);
      assert forall k | 0 <= k < |init| :: init[k] == items[k];
    }
  }

  // ---------------------------------------------------------------------
  // The result record
  // ---------------------------------------------------------------------

  /** The record `analyze` returns for a decoded object: every key present, with its default when missing. */
  function Interpret(p: Parsed, input: string): (req: Requirements)
    ensures req.language != "" && IsLowerCase(req.language) && req.language == FinalLanguage(p.language, input)
    ensures p.functional.None? ==> req.functional == []
    ensures p.nonFunctional.None? ==> req.nonFunctional == []
    ensures p.assumptions.None? ==> req.assumptions == []
    ensures p.constraints.None? ==> req.constraints == []
    ensures p.questions.None? ==> req.questions == []
    ensures p.ambiguityDetected.None? ==> !req.ambiguityDetected
    ensures p.notes.None? ==> req.notes == ""
    ensures p.functional.Some? ==> req.functional == p.functional.value
    ensures p.nonFunctional.Some? ==> req.nonFunctional == p.nonFunctional.value
    ensures p.assumptions.Some? ==> req.assumptions == p.assumptions.value
    ensures p.constraints.Some? ==> req.constraints == p.constraints.value
    ensures p.questions.Some? ==> req.questions == Normalized(p.questions.value)
    ensures p.ambiguityDetected.Some? ==> req.ambiguityDetected == p.ambiguityDetected.value
    ensures p.notes.Some? ==> req.notes == p.notes.value
  {
    Requirements(
      OrElse(p.functional, []),
      OrElse(p.nonFunctional, []),
      OrElse(p.assumptions, []),
      OrElse(p.constraints, []),
      FinalLanguage(p.language, input),
      Normalized(OrElse(p.questions, [])),
      OrElse(p.ambiguityDetected, false),
      OrElse(p.notes, ""))
  }

  /** A record written out as a complete requirements object. */
  function AsParsed(req: Requirements): (p: Parsed)
    ensures p.functional == Some(req.functional) && p.notes == Some(req.notes)
    ensures p.questions.Some? && |p.questions.value| == |req.questions|
  {
    Parsed(Some(req.functional), Some(req.nonFunctional), Some(req.assumptions), Some(req.constraints),
           Some(req.language), Some(AsItems(req.questions)), Some(req.ambiguityDetected), Some(req.notes))
  }

  /**
    Interpreting a complete object gives back the record it was written
    from, whenever its language is already final: lower-case, not empty and
    not "javascript" (which the React check may change).
   */
  lemma InterpretRoundTrip(req: Requirements, input: string)
    requires req.language != "" && IsLowerCase(req.language) && req.language != "javascript"
    ensures Interpret(AsParsed(req), input) == req
  {
    NormalizedIdempotent(req.questions);
    LowerOfLowerCase(req.language);
    TagKept(req.language, input);
  }

  /** A reply the fallback handles gives the reply as the one requirement, python, ambiguity and one stock question. */
  lemma FallbackRecord(content: string, input: string)
    ensures Interpret(Fallback(content), input) == Requirements(
              [content], [], ["Could not parse structured requirements - using raw input"], [], "python",
              [Triple("Could not parse structured requirements", "Using raw input as requirement", "# " + FallbackNotes)],
              true, FallbackNotes)
  {
    var items := Fallback(content).questions.value;
    assert items[..0] == [];
    assert Normalized(items) == [Triple("Could not parse structured requirements", "Using raw input as requirement", "# " + FallbackNotes)];
    assert Lower("python") == "python";
    assert FinalLanguage(Some("python"), input) == "python";
  }

  // ---------------------------------------------------------------------
  // The follow-up context section
  // ---------------------------------------------------------------------

  const ContextHeading: string := "\n\nPREVIOUS CONTEXT:\n"
  const FollowUpNote: string := "\nThis is a follow-up request. " +
    "Please update/modify the requirements based on the new input " +
    "while maintaining consistency with the previous context.\n"

  /** The previous code as quoted: its first 200 characters and "..." when longer. */
  function CodeSummary(code: string): (r: string)
    ensures |code| <= 200 ==> r == code
    ensures |code| > 200 ==> |r| == 203 && r[..200] == code[..200] && r[200..] == "..."
  {
    if |code| > 200 then code[..200] + "..." else code
  }

  /** `xs[:3]` */
  function FirstThree(xs: seq<string>): (r: seq<string>)
    ensures |r| <= 3 && |r| <= |xs| && r == xs[..|r|]
    ensures |xs| >= 3 ==> |r| == 3
    ensures |xs| < 3 ==> r == xs
  {
    if |xs| > 3 then xs[..3] else xs
  }

  /** The lines about the previous run's results. */
  function ResultLines(results: Option<RunResults>): string {
    FunctionalLine(results) + CodeLine(results)
  }

  /** The line quoting the first three previous functional requirements. */
  function FunctionalLine(results: Option<RunResults>): string {
    if results.Some? && results.value.functional.Some? then
      "Previous functional requirements: " + Join(", ", FirstThree(results.value.functional.value)) + "\n"
    else ""
  }

  /** The line summarising the previous code. */
  function CodeLine(results: Option<RunResults>): string {
    if results.Some? && results.value.code != "" then "Previous code summary: " + CodeSummary(results.value.code) + "\n" else ""
  }

  /** The line quoting the last previous prompt. */
  function PromptLine(prompts: seq<string>): string {
    if prompts != [] then "Previous prompt(s): " + prompts[|prompts| - 1] + "\n" else ""
  }

  /** What the context section quotes after its heading: the last prompt, the results and the follow-up note. */
  function Quoted(c: Context): string {
    PromptLine(c.prompts) + ResultLines(c.results) + FollowUpNote
  }

  /**
    The context section of the analysis prompt: present only for an active
    context with prompts or results, and then a heading, the quoted context
    and the follow-up note.
   */
  function ContextSection(context: Option<Context>): (section: string)
    ensures section != "" <==>
              context.Some? && context.value.active && (context.value.prompts != [] || context.value.results.Some?)
    ensures section != "" ==> StartsWith(section, ContextHeading)
  {
    if context.Some? && context.value.active && (context.value.prompts != [] || context.value.results.Some?) then
      var body := Quoted(context.value);
      assert (ContextHeading + body)[..|ContextHeading|] == ContextHeading;
      ContextHeading + body
    else ""
  }

  /**
    An active context's section quotes the last previous prompt, the first
    three previous functional requirements joined with ", ", the summary of
    the previous code and the follow-up note, each when there is one.
   */
  lemma SectionQuotes(c: Context)
    requires c.active
    ensures c.prompts != [] ==> Contains(ContextSection(Some(c)), c.prompts[|c.prompts| - 1])
    ensures c.results.Some? && c.results.value.functional.Some? ==>
              Contains(ContextSection(Some(c)), Join(", ", FirstThree(c.results.value.functional.value)))
    ensures c.results.Some? && c.results.value.code != "" ==>
              Contains(ContextSection(Some(c)), CodeSummary(c.results.value.code))
    ensures c.prompts != [] || c.results.Some? ==> Contains(ContextSection(Some(c)), FollowUpNote)
  {
    if c.prompts != [] || c.results.Some? {
      var f := FunctionalLine(c.results);
      var s := CodeLine(c.results);
      SectionLayout(c);
      SectionSplits(ContextHeading, PromptLine(c.prompts), f, s, FollowUpNote);
      if c.prompts != [] {
        LineIn(ContextHeading, PromptLine(c.prompts), f + s + FollowUpNote, "Previous prompt(s): ", c.prompts[|c.prompts| - 1]);
      }
      if c.results.Some? && c.results.value.functional.Some? {
        LineIn(ContextHeading + PromptLine(c.prompts), f, s + FollowUpNote,
               "Previous functional requirements: ", Join(", ", FirstThree(c.results.value.functional.value)));
      }
      if c.results.Some? && c.results.value.code != "" {
        LineIn(ContextHeading + PromptLine(c.prompts) + f, s, FollowUpNote, "Previous code summary: ", CodeSummary(c.results.value.code));
      }
      InfixContained(ContextHeading + PromptLine(c.prompts) + (f + s), FollowUpNote, []);
    }
  }

  /** An active, non-empty context's section as its five parts. */
  lemma SectionLayout(c: Context)
    requires c.active && (c.prompts != [] || c.results.Some?)
    ensures ContextSection(Some(c))
         == ContextHeading + (PromptLine(c.prompts) + (FunctionalLine(c.results) + CodeLine(c.results)) + FollowUpNote)
  {
  }

  /** The groupings of a five-part concatenation the quoting proof looks at. */
  lemma SectionSplits(h: string, p: string, f: string, s: string, n: string)
    ensures h + (p + (f + s) + n) == h + p + (f + s + n)
    ensures h + (p + (f + s) + n) == (h + p) + f + (s + n)
    ensures h + (p + (f + s) + n) == (h + p + f) + s + n
    ensures h + (p + (f + s) + n) == h + p + (f + s) + n + []
  {
  }

  /** A quoted value occurs in any text that holds its line. */
  lemma LineIn(before: string, line: string, after: string, lead: string, x: string)
    requires line == lead + x + "\n"
    ensures Contains(before + line + after, x)
  {
    assert before + line + after == (before + lead) + x + ("\n" + after);
    InfixContained(before + lead, x, "\n" + after);
  }

  /** Only the last previous prompt is quoted: earlier ones make no difference. */
  lemma OnlyLastPrompt(active: bool, earlier: seq<string>, last: string, results: Option<RunResults>)
    ensures ContextSection(Some(Context(active, earlier + [last], results)))
         == ContextSection(Some(Context(active, [last], results)))
  {
    assert PromptLine(earlier + [last]) == PromptLine([last]);
  }

  /** At most three previous functional requirements are quoted: the rest make no difference. */
  lemma OnlyFirstThree(active: bool, prompts: seq<string>, functional: seq<string>, more: seq<string>, code: string)
    requires |functional| == 3
    ensures ContextSection(Some(Context(active, prompts, Some(RunResults(Some(functional + more), code)))))
         == ContextSection(Some(Context(active, prompts, Some(RunResults(Some(functional), code)))))
  {
    assert FirstThree(functional + more) == FirstThree(functional);
  }

  /** Previous code is quoted only up to its 200th character: what follows makes no difference. */
  lemma OnlyCodePrefix(active: bool, prompts: seq<string>, functional: Option<seq<string>>, code: string, other: string)
    requires |code| > 200 && |other| > 200 && code[..200] == other[..200]
    ensures ContextSection(Some(Context(active, prompts, Some(RunResults(functional, code)))))
         == ContextSection(Some(Context(active, prompts, Some(RunResults(functional, other)))))
  {
    assert CodeSummary(code) == CodeSummary(other);
  }

  // ---------------------------------------------------------------------
  // analyze
  // ---------------------------------------------------------------------

  const NoneMessage: string := "Agent returned None response after retries. This may be due to API rate limiting or model unavailability."
  const EmptyMessage: string := "Agent returned empty content after retries."

  /** One attempt of the analysis call: None, exceptions and blank content are failures. */
  function Judge(r: Reply): (a: Attempt)
    ensures a.Accept? <==> (r.Str? || r.Dict?) && !IsBlank(ContentOf(r))
    ensures a.Accept? ==> a.text == ContentOf(r)
    ensures r.NoReply? ==> a == Reject(NoneMessage)
    ensures r.Raised? ==> a == Reject(r.message)
    ensures (r.Str? || r.Dict?) && IsBlank(ContentOf(r)) ==> a == Reject(EmptyMessage)
  {
    match r
    case NoReply => Reject(NoneMessage)
    case Raised(message) => Reject(message)
    case _ => if IsBlank(ContentOf(r)) then Reject(EmptyMessage) else Accept(ContentOf(r))
  }

  const RequirementPolicy: Policy :=
    Policy(Judge, "Requirement analysis API call", ". Check API key, model configuration, and network connection.")

  /** What `analyze` returns for the given replies, or the message of the ValueError it raises. */
  function Analyzed(input: string, replies: seq<Reply>, decode: string -> Option<Parsed>): Result<Requirements, string>
    requires |replies| == MaxRetries
  {
    match Run(RequirementPolicy, replies, 0).outcome
    case Failure(e) => Failure(e)
    case Success(content) => Success(Interpret(Decoded(content, decode), input))
  }

  /**
    `analyze`: the ambiguity score (computed, and not used further), the
    context section, the retry loop and the result record.
   */
  method Analyze(input: string, context: Option<Context>, replies: seq<Reply>, decode: string -> Option<Parsed>)
    returns (ambiguity: Ambiguity, section: string, result: Result<Requirements, string>, calls: nat)
    requires |replies| == MaxRetries
    ensures ambiguity == DetectAmbiguity(input)
    ensures section == ContextSection(context)
    ensures result == Analyzed(input, replies, decode)
    ensures calls == Run(RequirementPolicy, replies, 0).calls
  {
    ambiguity := DetectAmbiguity(input);
    section := ContextSection(context);
    var outcome;
    ghost var waits;
    outcome, calls, waits := Invoke(RequirementPolicy, replies);
    if outcome.Failure? {
      return ambiguity, section, Failure(outcome.error), calls;
    }
    var content := outcome.value;
    AcceptedIsNonBlank(RequirementPolicy, replies);
    if content == "" {
      // `if not content:` after the loop cannot fire.
      assert false;
    }
    var parsed := Decoded(content, decode);
    var questions := NormalizeQuestions(OrElse(parsed.questions, []));
    var language := FinalLanguage(parsed.language, input);
    result := Success(Requirements(
      OrElse(parsed.functional, []),
      OrElse(parsed.nonFunctional, []),
      OrElse(parsed.assumptions, []),
      OrElse(parsed.constraints, []),
      language,
      questions,
      OrElse(parsed.ambiguityDetected, false),
      OrElse(parsed.notes, "")));
  }

  /** A reply without a '{' before a '}' always gives the fallback record around the reply. */
  lemma UnstructuredReply(input: string, replies: seq<Reply>, decode: string -> Option<Parsed>)
    requires |replies| == MaxRetries
    requires Judge(replies[0]).Accept?
    requires forall i, j | 0 <= i < j < |ContentOf(replies[0])| :: !(ContentOf(replies[0])[i] == '{' && ContentOf(replies[0])[j] == '}')
    ensures Analyzed(input, replies, decode) == Success(Interpret(Fallback(ContentOf(replies[0])), input))
    ensures Analyzed(input, replies, decode).value.functional == [ContentOf(replies[0])]
  {
    var content := ContentOf(replies[0]);
    assert Run(RequirementPolicy, replies, 0).outcome == Success(content);
    assert Decoded(content, decode) == Fallback(content) by {
      NoSpan(content);
    }
    FallbackRecord(content, input);
  }

  /** Without a '{' before a '}' there is no JSON span. */
  lemma NoSpan(content: string)
    requires forall i, j | 0 <= i < j < |content| :: !(content[i] == '{' && content[j] == '}')
    ensures JsonSpan(content).None?
  {
  }
}
