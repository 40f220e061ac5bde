/**
  The coding agent: it picks one of three prompts, asks the model for code
  with the shared retry loop, cuts the code out of the reply's Markdown
  fences and falls back to the whole reply when that cut looks too short.
 */
module CodingAgent {
  import opened Outcomes
  import opened Text
  import opened Invoker
  import opened CodeFences
  import opened Records

  /** `if feedback:` / `elif previous_code:` for an optional string: present and not empty. */
  predicate Given(s: Option<string>) {
    s.Some? && s.value != ""
  }

  /** The three prompts, with what each embeds (their fixed wording is not modelled). */
  datatype Prompt =
    | Revise(requirements: string, feedback: string)   // review feedback to address
    | Modify(previous: string, requirements: string)   // a follow-up on earlier code
    | Fresh(requirements: string)                       // a first attempt

  /**
    Review feedback wins over earlier code; earlier code is used only when
    there is no feedback; otherwise the plain prompt.
   */
  function ChoosePrompt(requirements: string, feedback: Option<string>, previous: Option<string>): (p: Prompt)
    ensures p.Revise? <==> Given(feedback)
    ensures p.Modify? <==> !Given(feedback) && Given(previous)
    ensures p.requirements == requirements
    ensures p.Revise? ==> p.feedback == feedback.value
    ensures p.Modify? ==> p.previous == previous.value
  {
    if Given(feedback) then Revise(requirements, feedback.value)
    else if Given(previous) then Modify(previous.value, requirements)
    else Fresh(requirements)
  }

  /** Earlier code never changes the prompt once there is feedback. */
  lemma FeedbackWins(requirements: string, feedback: Option<string>, previous: Option<string>, other: Option<string>)
    requires Given(feedback)
    ensures ChoosePrompt(requirements, feedback, previous) == ChoosePrompt(requirements, feedback, other)
  {
  }

  const NoneMessage: string := "Agent returned None response after retries. This may be due to API rate limiting or model unavailability."
  const EmptyMessage: string := "Agent returned empty code after retries."

  /**
    One call of the loop: None and exceptions are failures, and so is a reply
    whose text (content, else text, else the dict itself) is blank.
   */
  function Judge(r: Reply): (a: Attempt)
    ensures a.Accept? <==> (r.Str? || r.Dict?) && !IsBlank(ContentOrTextOf(r))
    ensures a.Accept? ==> a.text == ContentOrTextOf(r)
    ensures r.NoReply? ==> a == Reject(NoneMessage)
    ensures r.Raised? ==> a == Reject(r.message)
    ensures (r.Str? || r.Dict?) && IsBlank(ContentOrTextOf(r)) ==> a == Reject(EmptyMessage)
  {
    match r
    case NoReply => Reject(NoneMessage)
    case Raised(message) => Reject(message)
    case _ => if IsBlank(ContentOrTextOf(r)) then Reject(EmptyMessage) else Accept(ContentOrTextOf(r))
  }

  const CodePolicy: Policy := Policy(Judge, "API call", ". Check API key, model configuration, and network connection.")

  /** The words whose presence makes a reply "look like code" to the safety net. */
  const CodeWords: seq<string> := ["def ", "class ", "import ", "from ", "# File:"]

  /** `len(extracted) < len(raw) * 0.3`, with the factor 0.3 as the exact fraction 3/10. */
  predicate MuchShorter(extracted: string, raw: string) {
    10 * |extracted| < 3 * |raw|
  }

  /**
    The safety net after extraction: a much shorter extraction of a long
    reply that looks like code gives way to the whole reply, stripped; an
    empty extraction does too.
   */
  function SafetyNet(raw: string, extracted: string): (code: string)
    ensures code == Strip(raw) || code == extracted
    ensures MuchShorter(extracted, raw) && |raw| > 200 && ContainsAny(raw, CodeWords) ==> code == Strip(raw)
    ensures !(MuchShorter(extracted, raw) && |raw| > 200 && ContainsAny(raw, CodeWords)) && extracted != "" ==> code == extracted
    ensures !(MuchShorter(extracted, raw) && |raw| > 200 && ContainsAny(raw, CodeWords)) && extracted == "" ==> code == Strip(raw)
  {
    if MuchShorter(extracted, raw) && |raw| > 200 && ContainsAny(raw, CodeWords) then Strip(raw)
    else if extracted != "" then extracted
    else Strip(raw)
  }

  /** What generate_code returns for the given replies: the code, or the message of the ValueError it raises. */
  function Generated(replies: seq<Reply>): Result<string, string>
    requires |replies| == MaxRetries
  {
    match Run(CodePolicy, replies, 0).outcome
    case Failure(e) => Failure(e)
    case Success(raw) => Success(SafetyNet(raw, Extract(raw)))
  }

  /** `_format_requirements` of the coding agent: all four lists of the record. */
  method FormatRequirements(req: Requirements) returns (text: string)
    ensures text == FullRequirements(req)
  {
    text := FormatBrief(req);
    text := text + "\nASSUMPTIONS:\n";
    text := AppendBullets(text, req.assumptions);
    text := text + "\nCONSTRAINTS:\n";
    text := AppendBullets(text, req.constraints);
  }

  /** generate_code: prompt choice, the retry loop, extraction and the safety net. */
  method GenerateCode(req: Requirements, feedback: Option<string>, previous: Option<string>, replies: seq<Reply>)
    returns (prompt: Prompt, result: Result<string, string>, calls: nat)
    requires |replies| == MaxRetries
    ensures prompt == ChoosePrompt(FullRequirements(req), feedback, previous)
    ensures result == Generated(replies)
    ensures calls == Run(CodePolicy, replies, 0).calls
    ensures result.Success? ==> !IsBlank(result.value)
  {
    var requirements := FormatRequirements(req);
    prompt := ChoosePrompt(requirements, feedback, previous);
    var outcome;
    ghost var waits;
    outcome, calls, waits := Invoke(CodePolicy, replies);
    if outcome.Failure? {
      return prompt, Failure(outcome.error), calls;
    }
    var raw := outcome.value;
    AcceptedIsNonBlank(CodePolicy, replies);
    if raw == "" {
      // `if not code:` after the loop cannot fire: every accepted reply is non-blank.
      assert false;
    }
    var extracted := ExtractCodeBlocks(raw);
    ExtractNonBlank(raw);
    result := Success(SafetyNet(raw, extracted));
    StripNonBlank(raw);
  }

  /** Whatever the replies, generate_code either raises or returns non-blank code. */
  lemma GeneratedNonBlank(replies: seq<Reply>)
    requires |replies| == MaxRetries
    ensures Generated(replies).Success? ==> !IsBlank(Generated(replies).value)
  {
    var run := Run(CodePolicy, replies, 0);
    AcceptedIsNonBlank(CodePolicy, replies);
    if run.outcome.Success? {
      var raw := run.outcome.value;
      ExtractNonBlank(raw);
      StripNonBlank(raw);
    }
  }

  /**
    A first reply that is one ```python block around code s gives exactly s:
    the block is never short enough against the reply for the safety net to
    take over.
   */
  lemma FencedReplyGivesCode(replies: seq<Reply>, s: string)
    requires |replies| == MaxRetries
    requires s != [] && IsStripped(s) && !Contains(s, Ticks)
    requires replies[0] == Str(Fenced("python", s))
    ensures Generated(replies) == Success(s)
  {
    var raw := Fenced("python", s);
    assert !IsBlank(raw) by {
      assert raw[0] == '`';
    }
    assert Run(CodePolicy, replies, 0).outcome == Success(raw);
    ExtractFenced("python", s);
    assert |raw| == |s| + 14;
  }

  /** The loop fails only when all three replies fail, and then with the fixed wording around the last reason. */
  lemma GeneratedFailure(replies: seq<Reply>)
    requires |replies| == MaxRetries
    ensures Generated(replies).Failure? <==> forall k | 0 <= k < MaxRetries :: Judge(replies[k]).Reject?
    ensures Generated(replies).Failure? ==>
              Generated(replies).error == "API call" + " failed after 3 attempts: " + Judge(replies[2]).reason +
                                          ". Check API key, model configuration, and network connection."
  {
    var run := Run(CodePolicy, replies, 0);
    if run.outcome.Success? {
      var k :| 0 <= k < MaxRetries && CodePolicy.judge(replies[k]).Accept?;
      assert Judge(replies[k]).Accept?;
    }
  }
}
