/**
  The test-generation agent: the same retry loop as the coding agent, except
  that extraction and a test-specific safety net run inside each attempt, so
  an empty extraction would count as a failed attempt.
 */
module TestAgent {
  import opened Outcomes
  import opened Text
  import opened Invoker
  import opened CodeFences
  import opened Records

  const NoneMessage: string := "Agent returned None response after retries. This may be due to API rate limiting or model unavailability."
  const EmptyMessage: string := "Agent returned empty test code after retries."
  const EmptyExtractionMessage: string := "Extracted test code is empty after retries."

  /** The words whose presence makes a reply "look like test code". */
  const TestWords: seq<string> := ["def test_", "import pytest", "class Test", "assert "]

  /**
    The test safety net: a much shorter extraction (under 3/10 of the reply)
    of a reply over 200 characters gives way to the whole reply, stripped,
    only when the reply looks like test code; otherwise the extraction stays.
   */
  function TestSafetyNet(raw: string, extracted: string): (code: string)
    ensures 10 * |extracted| < 3 * |raw| && |raw| > 200 && ContainsAny(raw, TestWords) ==> code == Strip(raw)
    ensures !(10 * |extracted| < 3 * |raw| && |raw| > 200 && ContainsAny(raw, TestWords)) ==> code == extracted
  {
    if 10 * |extracted| < 3 * |raw| && |raw| > 200 then
      if ContainsAny(raw, TestWords) then Strip(raw) else extracted
    else extracted
  }

  /** The "final fallback": an empty result is replaced by a non-empty extraction. */
  function FinalFallback(code: string, extracted: string): (r: string)
    ensures code != "" ==> r == code
    ensures code == "" ==> r == extracted
  {
    if !IsBlank(code) then code
    else if code != "" then code
    else if extracted != "" then extracted
    else code
  }

  /** The test code one reply yields: extraction, then the safety net, then the final fallback. */
  function TestCodeOf(raw: string): string {
    var extracted := Extract(raw);
    FinalFallback(TestSafetyNet(raw, extracted), extracted)
  }

  /** One attempt of generate_tests. */
  function Judge(r: Reply): (a: Attempt)
    ensures r.NoReply? ==> a == Reject(NoneMessage)
    ensures r.Raised? ==> a == Reject(r.message)
    ensures (r.Str? || r.Dict?) && IsBlank(ContentOrTextOf(r)) ==> a == Reject(EmptyMessage)
    ensures a.Accept? ==> a.text == TestCodeOf(ContentOrTextOf(r))
  {
    match r
    case NoReply => Reject(NoneMessage)
    case Raised(message) => Reject(message)
    case _ =>
      var raw := ContentOrTextOf(r);
      if IsBlank(raw) then Reject(EmptyMessage)
      else
        var code := TestCodeOf(raw);
        if IsBlank(code) then Reject(EmptyExtractionMessage) else Accept(code)
  }

  const TestPolicy: Policy := Policy(Judge, "Test generation API call", ". Check API key, model configuration, and network connection.")

  /** The test code of a non-blank reply is non-blank: it is the stripped reply or a non-blank extraction. */
  lemma TestCodeNonBlank(raw: string)
    requires !IsBlank(raw)
    ensures !IsBlank(TestCodeOf(raw))
  {
    ExtractNonBlank(raw);
    StripNonBlank(raw);
  }

  /**
    The check "Extracted test code is empty" never fires: a reply is a
    failed attempt exactly when it is None, an exception or blank.
   */
  lemma NoEmptyExtraction(r: Reply)
    ensures Judge(r).Accept? <==> (r.Str? || r.Dict?) && !IsBlank(ContentOrTextOf(r))
    ensures Judge(r) != Reject(EmptyExtractionMessage) || (r.Raised? && r.message == EmptyExtractionMessage)
  {
    if r.Str? || r.Dict? {
      var raw := ContentOrTextOf(r);
      if !IsBlank(raw) {
        TestCodeNonBlank(raw);
      }
    }
  }

  /** What generate_tests returns for the given replies, or the message it raises. */
  function GeneratedTests(replies: seq<Reply>): Result<string, string>
    requires |replies| == MaxRetries
  {
    Run(TestPolicy, replies, 0).outcome
  }

  /** generate_tests: the retry loop, with extraction inside each attempt. */
  method GenerateTests(replies: seq<Reply>) returns (result: Result<string, string>, calls: nat)
    requires |replies| == MaxRetries
    ensures result == GeneratedTests(replies)
    ensures calls == Run(TestPolicy, replies, 0).calls
    ensures result.Success? ==> !IsBlank(result.value)
  {
    ghost var waits;
    result, calls, waits := Invoke(TestPolicy, replies);
    AcceptedIsNonBlank(TestPolicy, replies);
    if result.Success? && result.value == "" {
      // `if not test_code:` after the loop cannot fire.
      assert false;
    }
  }

  /** A first reply that is one ```python block around test code s gives exactly s. */
  lemma FencedReplyGivesTests(replies: seq<Reply>, s: string)
    requires |replies| == MaxRetries
    requires s != [] && IsStripped(s) && !Contains(s, Ticks)
    requires replies[0] == Str(Fenced("python", s))
    ensures GeneratedTests(replies) == Success(s)
  {
    FencedTestCode(s);
    assert Judge(replies[0]) == Accept(s);
  }

  /** One ```python block around test code s is a non-blank reply whose test code is s. */
  lemma FencedTestCode(s: string)
    requires s != [] && IsStripped(s) && !Contains(s, Ticks)
    ensures !IsBlank(Fenced("python", s)) && TestCodeOf(Fenced("python", s)) == s
  {
    var raw := Fenced("python", s);
    assert raw[0] == '`';
    ExtractFenced("python", s);
    assert |raw| == |s| + 14;
  }

  /** What one analysis of the code found: classes, top-level functions or file names. */
  datatype Finding =
    | Classes(names: seq<string>)
    | Functions(names: seq<string>)
    | Files(names: seq<string>)

  /** The line of one finding; it never begins like the single-module sentence. */
  function FindingLine(f: Finding): (line: string)
    ensures |line| > 0 && line[0] != SingleModule[0]
  {
    var head := match f
      case Classes(_) => "Classes found: "
      case Functions(_) => "Top-level functions found: "
      case Files(_) => "Files found: ";
    assert head[0] != 'S' && SingleModule[0] == 'S';
    head + Join(", ", f.names)
  }

  const SingleModule: string := "Single module detected " + "(no explicit classes or multiple files found)"

  /**
    The summary `_identify_modules` returns for what the analysis found: one
    line per finding, or the single-module sentence when nothing was found.
    It is never empty.
   */
  function ModulesSummary(findings: seq<Finding>): (r: string)
    ensures r != ""
    ensures findings == [] <==> r == SingleModule
    ensures findings != [] ==> StartsWith(r, FindingLine(findings[0]))
    decreases |findings|
  {
    if findings == [] then SingleModule
    else if |findings| == 1 then FindingLine(findings[0])
    else
      var r := FindingLine(findings[0]) + "\n" + ModulesSummary(findings[1..]);
      assert r[..|FindingLine(findings[0])|] == FindingLine(findings[0]);
      assert r[0] == FindingLine(findings[0])[0];
      r
  }
}
